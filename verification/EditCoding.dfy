/** Version edits as manifest records (db/version_edit.cc): a list of tagged items. */
module EditCoding {
  import opened History
  import opened Coding
  import opened Slices
  import Log

  const NUM_LEVELS := 7

  datatype FileMetaData = FileMetaData(number: nat, fileSize: nat, smallest: Bytes, largest: Bytes)

  datatype VersionEdit = VersionEdit(comparator: Option<Bytes>, logNumber: Option<nat>, prevLogNumber: Option<nat>,
                                     nextFileNumber: Option<nat>, lastSequence: Option<nat>,
                                     compactPointers: seq<(nat, Bytes)>, deletedFiles: set<(nat, nat)>,
                                     newFiles: seq<(nat, FileMetaData)>)

  /** One item of the encoding. */
  datatype Item =
    | Comparator(name: Bytes)
    | LogNumber(n: nat)
    | PrevLogNumber(n: nat)
    | NextFileNumber(n: nat)
    | LastSequence(n: nat)
    | CompactPointer(level: nat, key: Bytes)
    | DeletedFile(level: nat, n: nat)
    | NewFile(level: nat, f: FileMetaData)

  const EMPTY := VersionEdit(None, None, None, None, None, [], {}, [])

  function TagOf(item: Item): (t: nat)
    ensures 1 <= t <= 9
  {
    match item
    case Comparator(_) => 1
    case LogNumber(_) => 2
    case NextFileNumber(_) => 3
    case LastSequence(_) => 4
    case CompactPointer(_, _) => 5
    case DeletedFile(_, _) => 6
    case NewFile(_, _) => 7
    case PrevLogNumber(_) => 9
  }

  /** What an item does to an edit that is being decoded. */
  function Apply(e: VersionEdit, item: Item): VersionEdit {
    match item
    case Comparator(name) => e.(comparator := Some(name))
    case LogNumber(n) => e.(logNumber := Some(n))
    case PrevLogNumber(n) => e.(prevLogNumber := Some(n))
    case NextFileNumber(n) => e.(nextFileNumber := Some(n))
    case LastSequence(n) => e.(lastSequence := Some(n))
    case CompactPointer(level, key) => e.(compactPointers := e.compactPointers + [(level, key)])
    case DeletedFile(level, n) => e.(deletedFiles := e.deletedFiles + {(level, n)})
    case NewFile(level, f) => e.(newFiles := e.newFiles + [(level, f)])
  }

  function ApplyAll(e: VersionEdit, items: seq<Item>): VersionEdit
    decreases |items|
  {
    if items == [] then e else ApplyAll(Apply(e, items[0]), items[1..])
  }

  // ---------- the bytes ----------

  function ItemBytes(item: Item): Bytes {
    Varint(TagOf(item)) + PayloadBytes(item)
  }

  function PayloadBytes(item: Item): Bytes {
    match item
    case Comparator(name) => LengthPrefixed(name)
    case LogNumber(n) => Varint(n)
    case PrevLogNumber(n) => Varint(n)
    case NextFileNumber(n) => Varint(n)
    case LastSequence(n) => Varint(n)
    case CompactPointer(level, key) => Varint(level) + LengthPrefixed(key)
    case DeletedFile(level, n) => Varint(level) + Varint(n)
    case NewFile(level, f) => Varint(level) + FileBytes(f)
  }

  function FileBytes(f: FileMetaData): Bytes {
    Varint(f.number) + (Varint(f.fileSize) + (LengthPrefixed(f.smallest) + LengthPrefixed(f.largest)))
  }

  function ItemsBytes(items: seq<Item>): Bytes {
    if items == [] then [] else ItemBytes(items[0]) + ItemsBytes(items[1..])
  }

  /** Numbers fit 64 bits, lengths 32, and levels exist. */
  predicate ItemOk(item: Item) {
    match item
    case Comparator(name) => |name| < TWO32
    case CompactPointer(level, key) => level < NUM_LEVELS && |key| < TWO32
    case DeletedFile(level, n) => level < NUM_LEVELS && n < TWO64
    case NewFile(level, f) => level < NUM_LEVELS && f.number < TWO64 && f.fileSize < TWO64 && |f.smallest| < TWO32 && |f.largest| < TWO32
    case _ => item.n < TWO64
  }

  // ---------- reading them ----------

  function GetLevel(s: Bytes, p: nat): (r: Option<(nat, nat)>)
    ensures r.Some? ==> p < r.value.1 <= |s|
  {
    match Get32(s, p)
    case None => None
    case Some((v, q)) => if v < NUM_LEVELS then Some((v, q)) else None
  }

  function FileAt(s: Bytes, p: nat): (r: Option<(FileMetaData, nat)>)
    ensures r.Some? ==> p < r.value.1 <= |s|
  {
    match Get64(s, p)
    case None => None
    case Some((number, a)) =>
      match Get64(s, a)
      case None => None
      case Some((fileSize, b)) =>
        match GetSlice(s, b)
        case None => None
        case Some((smallest, c)) =>
          match GetSlice(s, c)
          case None => None
          case Some((largest, q)) => Some((FileMetaData(number, fileSize, smallest, largest), q))
  }

  /** What follows a tag. */
  function PayloadAt(tag: nat, s: Bytes, p: nat): (r: Option<(Item, nat)>)
    ensures r.Some? ==> p < r.value.1 <= |s|
  {
    if tag == 1 then
      (match GetSlice(s, p) case None => None case Some((name, q)) => Some((Comparator(name), q)))
    else if tag == 2 then
      (match Get64(s, p) case None => None case Some((n, q)) => Some((LogNumber(n), q)))
    else if tag == 9 then
      (match Get64(s, p) case None => None case Some((n, q)) => Some((PrevLogNumber(n), q)))
    else if tag == 3 then
      (match Get64(s, p) case None => None case Some((n, q)) => Some((NextFileNumber(n), q)))
    else if tag == 4 then
      (match Get64(s, p) case None => None case Some((n, q)) => Some((LastSequence(n), q)))
    else if tag == 5 || tag == 6 || tag == 7 then
      match GetLevel(s, p)
      case None => None
      case Some((level, a)) =>
        if tag == 5 then
          (match GetSlice(s, a) case None => None case Some((key, q)) => Some((CompactPointer(level, key), q)))
        else if tag == 6 then
          (match Get64(s, a) case None => None case Some((n, q)) => Some((DeletedFile(level, n), q)))
        else
          (match FileAt(s, a) case None => None case Some((f, q)) => Some((NewFile(level, f), q)))
    else None
  }

  /** The edit decoded from position `p` on. */
  function Parsed(s: Bytes, p: nat, e: VersionEdit): Option<VersionEdit>
    requires p <= |s|
    decreases |s| - p
  {
    match Get32(s, p)
    case None => if p == |s| then Some(e) else None
    case Some((tag, q)) =>
      match PayloadAt(tag, s, q)
      case None => None
      case Some((item, r)) => Parsed(s, r, Apply(e, item))
  }

  // ---------- what was written is read ----------

  lemma WrittenLevel(s: Bytes, p: nat, level: nat)
    requires StandsAt(s, p, Varint(level)) && level < NUM_LEVELS
    ensures GetLevel(s, p) == Some((level, p + |Varint(level)|))
  {
    hide Get32;
    Written32(s, p, level);
  }

  lemma WrittenFile(s: Bytes, p: nat, f: FileMetaData)
    requires f.number < TWO64 && f.fileSize < TWO64 && |f.smallest| < TWO32 && |f.largest| < TWO32
    requires StandsAt(s, p, FileBytes(f))
    ensures FileAt(s, p) == Some((f, p + |FileBytes(f)|))
  {
    hide Varint, LengthPrefixed, Get64, GetSlice, StandsAt;
    var a, b, c, d := Varint(f.number), Varint(f.fileSize), LengthPrefixed(f.smallest), LengthPrefixed(f.largest);
    StandsPart(s, p, a, b + (c + d));
    StandsPart(s, p + |a|, b, c + d);
    StandsPart(s, p + |a| + |b|, c, d);
    Written64(s, p, f.number);
    Written64(s, p + |a|, f.fileSize);
    WrittenSlice(s, p + |a| + |b|, f.smallest);
    WrittenSlice(s, p + |a| + |b| + |c|, f.largest);
  }

  lemma WrittenPayload(s: Bytes, p: nat, item: Item)
    requires ItemOk(item) && StandsAt(s, p, PayloadBytes(item))
    ensures PayloadAt(TagOf(item), s, p) == Some((item, p + |PayloadBytes(item)|))
  {
    hide Varint, LengthPrefixed, Get32, Get64, GetSlice, GetLevel, FileAt, StandsAt;
    match item
    case Comparator(name) => WrittenSlice(s, p, name);
    case CompactPointer(level, key) =>
      StandsPart(s, p, Varint(level), LengthPrefixed(key));
      WrittenLevel(s, p, level);
      WrittenSlice(s, p + |Varint(level)|, key);
    case DeletedFile(level, n) =>
      StandsPart(s, p, Varint(level), Varint(n));
      WrittenLevel(s, p, level);
      Written64(s, p + |Varint(level)|, n);
    case NewFile(level, f) =>
      StandsPart(s, p, Varint(level), FileBytes(f));
      WrittenLevel(s, p, level);
      WrittenFile(s, p + |Varint(level)|, f);
    case _ => Written64(s, p, item.n);
  }

  lemma WrittenItem(s: Bytes, p: nat, item: Item)
    requires ItemOk(item) && StandsAt(s, p, ItemBytes(item))
    ensures var tag := Varint(TagOf(item));
            && Get32(s, p) == Some((TagOf(item), p + |tag|))
            && PayloadAt(TagOf(item), s, p + |tag|) == Some((item, p + |ItemBytes(item)|))
  {
    hide Varint, Get32, PayloadAt, PayloadBytes, StandsAt, ItemOk;
    StandsPart(s, p, Varint(TagOf(item)), PayloadBytes(item));
    WrittenPayload(s, p + |Varint(TagOf(item))|, item);
    Written32(s, p, TagOf(item));
  }

  /** Decoding a list of items applies them in turn. */
  lemma {:induction false} WrittenItems(s: Bytes, p: nat, items: seq<Item>, e: VersionEdit)
    requires forall i :: 0 <= i < |items| ==> ItemOk(items[i])
    requires StandsAt(s, p, ItemsBytes(items)) && p + |ItemsBytes(items)| == |s|
    ensures Parsed(s, p, e) == Some(ApplyAll(e, items))
    decreases |items|
  {
    hide ItemBytes, ItemOk, PayloadAt, Apply, StandsAt;
    if items == [] {
      NothingLeft(s);
    } else {
      StandsPart(s, p, ItemBytes(items[0]), ItemsBytes(items[1..]));
      WrittenItem(s, p, items[0]);
      WrittenItems(s, p + |ItemBytes(items[0])|, items[1..], Apply(e, items[0]));
    }
  }

  lemma NothingLeft(s: Bytes)
    ensures Get32(s, |s|) == None
  {
  }

  // ---------- the items of an edit ----------

  function Counters(e: VersionEdit): seq<Item> {
    (if e.comparator.Some? then [Comparator(e.comparator.value)] else []) +
    (if e.logNumber.Some? then [LogNumber(e.logNumber.value)] else []) +
    (if e.prevLogNumber.Some? then [PrevLogNumber(e.prevLogNumber.value)] else []) +
    (if e.nextFileNumber.Some? then [NextFileNumber(e.nextFileNumber.value)] else []) +
    (if e.lastSequence.Some? then [LastSequence(e.lastSequence.value)] else [])
  }

  function Pointers(ps: seq<(nat, Bytes)>): seq<Item> {
    seq(|ps|, i requires 0 <= i < |ps| => CompactPointer(ps[i].0, ps[i].1))
  }

  function Deletions(ds: seq<(nat, nat)>): seq<Item> {
    seq(|ds|, i requires 0 <= i < |ds| => DeletedFile(ds[i].0, ds[i].1))
  }

  function Additions(fs: seq<(nat, FileMetaData)>): seq<Item> {
    seq(|fs|, i requires 0 <= i < |fs| => NewFile(fs[i].0, fs[i].1))
  }

  /** The edit's items in the order they are written; `ds` lists the deleted files. */
  function ItemsOf(e: VersionEdit, ds: seq<(nat, nat)>): seq<Item> {
    Counters(e) + (Pointers(e.compactPointers) + (Deletions(ds) + Additions(e.newFiles)))
  }

  ghost predicate Lists(ds: seq<(nat, nat)>, d: set<(nat, nat)>) {
    forall x :: x in ds <==> x in d
  }

  predicate EditOk(e: VersionEdit) {
    && (e.comparator.Some? ==> |e.comparator.value| < TWO32)
    && (e.logNumber.Some? ==> e.logNumber.value < TWO64) && (e.prevLogNumber.Some? ==> e.prevLogNumber.value < TWO64)
    && (e.nextFileNumber.Some? ==> e.nextFileNumber.value < TWO64) && (e.lastSequence.Some? ==> e.lastSequence.value < TWO64)
    && (forall p :: p in e.compactPointers ==> ItemOk(CompactPointer(p.0, p.1)))
    && (forall d :: d in e.deletedFiles ==> ItemOk(DeletedFile(d.0, d.1)))
    && (forall f :: f in e.newFiles ==> ItemOk(NewFile(f.0, f.1)))
  }

  lemma {:induction false} ApplyBoth(e: VersionEdit, a: seq<Item>, b: seq<Item>)
    ensures ApplyAll(e, a + b) == ApplyAll(ApplyAll(e, a), b)
    decreases |a|
  {
    hide Apply;
    if a == [] {
      assert a + b == b;
    } else {
      assert (a + b)[1..] == a[1..] + b;
      ApplyBoth(Apply(e, a[0]), a[1..], b);
    }
  }

  lemma {:induction false} ApplyPointers(e: VersionEdit, ps: seq<(nat, Bytes)>)
    ensures ApplyAll(e, Pointers(ps)) == e.(compactPointers := e.compactPointers + ps)
    decreases |ps|
  {
    if ps == [] {
      assert e.compactPointers + ps == e.compactPointers;
    } else {
      assert Pointers(ps)[1..] == Pointers(ps[1..]);
      ApplyPointers(Apply(e, Pointers(ps)[0]), ps[1..]);
      assert e.compactPointers + [(ps[0].0, ps[0].1)] + ps[1..] == e.compactPointers + ps;
    }
  }

  lemma {:induction false} ApplyDeletions(e: VersionEdit, ds: seq<(nat, nat)>)
    ensures ApplyAll(e, Deletions(ds)) == e.(deletedFiles := e.deletedFiles + set d | d in ds)
    decreases |ds|
  {
    if ds == [] {
      assert e.deletedFiles + (set d | d in ds) == e.deletedFiles;
    } else {
      assert Deletions(ds)[1..] == Deletions(ds[1..]);
      ApplyDeletions(Apply(e, Deletions(ds)[0]), ds[1..]);
      assert e.deletedFiles + {(ds[0].0, ds[0].1)} + (set d | d in ds[1..]) == e.deletedFiles + set d | d in ds;
    }
  }

  lemma {:induction false} ApplyAdditions(e: VersionEdit, fs: seq<(nat, FileMetaData)>)
    ensures ApplyAll(e, Additions(fs)) == e.(newFiles := e.newFiles + fs)
    decreases |fs|
  {
    if fs == [] {
      assert e.newFiles + fs == e.newFiles;
    } else {
      assert Additions(fs)[1..] == Additions(fs[1..]);
      ApplyAdditions(Apply(e, Additions(fs)[0]), fs[1..]);
      assert e.newFiles + [(fs[0].0, fs[0].1)] + fs[1..] == e.newFiles + fs;
    }
  }

  lemma ApplyCounters(e: VersionEdit)
    ensures ApplyAll(EMPTY, Counters(e)) == e.(compactPointers := [], deletedFiles := {}, newFiles := [])
  {
    var a := if e.comparator.Some? then [Comparator(e.comparator.value)] else [];
    var b := if e.logNumber.Some? then [LogNumber(e.logNumber.value)] else [];
    var c := if e.prevLogNumber.Some? then [PrevLogNumber(e.prevLogNumber.value)] else [];
    var d := if e.nextFileNumber.Some? then [NextFileNumber(e.nextFileNumber.value)] else [];
    var f := if e.lastSequence.Some? then [LastSequence(e.lastSequence.value)] else [];
    ApplyBoth(EMPTY, a, b);
    ApplyBoth(EMPTY, a + b, c);
    ApplyBoth(EMPTY, a + b + c, d);
    ApplyBoth(EMPTY, a + b + c + d, f);
  }

  lemma ItemsAreOk(e: VersionEdit, ds: seq<(nat, nat)>)
    requires EditOk(e) && Lists(ds, e.deletedFiles)
    ensures forall i :: 0 <= i < |ItemsOf(e, ds)| ==> ItemOk(ItemsOf(e, ds)[i])
  {
    assert forall x :: x in Counters(e) ==> ItemOk(x);
    assert forall x :: x in Pointers(e.compactPointers) ==> ItemOk(x);
    assert forall x :: x in Deletions(ds) ==> ItemOk(x);
    assert forall x :: x in Additions(e.newFiles) ==> ItemOk(x);
  }

  lemma ItemsMakeEdit(e: VersionEdit, ds: seq<(nat, nat)>)
    requires Lists(ds, e.deletedFiles)
    ensures ApplyAll(EMPTY, ItemsOf(e, ds)) == e
  {
    hide Counters, Pointers, Deletions, Additions, ApplyAll;
    var a, b, c, d := Counters(e), Pointers(e.compactPointers), Deletions(ds), Additions(e.newFiles);
    ApplyBoth(EMPTY, a, b + (c + d));
    ApplyCounters(e);
    var e1 := e.(compactPointers := [], deletedFiles := {}, newFiles := []);
    ApplyBoth(e1, b, c + d);
    ApplyPointers(e1, e.compactPointers);
    var e2 := e1.(compactPointers := e.compactPointers);
    assert [] + e.compactPointers == e.compactPointers;
    ApplyBoth(e2, c, d);
    ApplyDeletions(e2, ds);
    assert {} + (set x | x in ds) == e.deletedFiles;
    ApplyAdditions(e2.(deletedFiles := e.deletedFiles), e.newFiles);
    assert [] + e.newFiles == e.newFiles;
  }

  /** An edit decoded from its encoding is the same edit. */
  lemma RoundTrip(e: VersionEdit, ds: seq<(nat, nat)>)
    requires EditOk(e) && Lists(ds, e.deletedFiles)
    ensures Parsed(ItemsBytes(ItemsOf(e, ds)), 0, EMPTY) == Some(e)
  {
    hide ItemsOf, ItemsBytes, EditOk, Parsed;
    var items := ItemsOf(e, ds);
    var s := ItemsBytes(items);
    assert s[0..|s|] == s;
    ItemsAreOk(e, ds);
    WrittenItems(s, 0, items, EMPTY);
    ItemsMakeEdit(e, ds);
  }

  // ---------- a manifest ----------

  /** The records of a manifest that logs the edits. */
  ghost function Records(edits: seq<VersionEdit>, lists: seq<seq<(nat, nat)>>): (r: seq<Bytes>)
    requires |edits| == |lists|
    ensures |r| == |edits|
  {
    seq(|edits|, i requires 0 <= i < |edits| => ItemsBytes(ItemsOf(edits[i], lists[i])))
  }

  /** A manifest cut off anywhere gives back its first edits, those whose records are complete. */
  lemma ManifestReadsBack(crc: Log.Crc, edits: seq<VersionEdit>, lists: seq<seq<(nat, nat)>>, n: nat)
    requires |edits| == |lists| && forall i :: 0 <= i < |edits| ==> EditOk(edits[i]) && Lists(lists[i], edits[i].deletedFiles)
    requires n <= |Log.FileOf(crc, Records(edits, lists))|
    ensures var (records, corruptions) := Log.ReadAll(crc, Log.FileOf(crc, Records(edits, lists))[..n], 0);
            && corruptions == [] && |records| == Log.Complete(crc, Records(edits, lists), n) <= |edits|
            && forall i :: 0 <= i < |records| ==> Parsed(records[i], 0, EMPTY) == Some(edits[i])
  {
    hide EditOk, Lists, ItemsOf, ItemsBytes, Parsed, Log.ReadAll, Log.FileOf, Log.Complete;
    Log.ReadTruncated(crc, Records(edits, lists), n);
    forall i | 0 <= i < |edits|
      ensures Parsed(Records(edits, lists)[i], 0, EMPTY) == Some(edits[i])
    {
      RoundTrip(edits[i], lists[i]);
    }
  }

  // ---------- writing and reading step by step ----------

  method PutItem(dst: Bytes, item: Item) returns (r: Bytes)
    ensures r == dst + ItemBytes(item)
  {
    hide Varint, LengthPrefixed;
    r := PutVarint64(dst, TagOf(item));
    match item {
      case Comparator(name) => r := PutSlice(r, name);
      case CompactPointer(level, key) =>
        r := PutVarint64(r, level);
        r := PutSlice(r, key);
      case DeletedFile(level, n) =>
        r := PutVarint64(r, level);
        r := PutVarint64(r, n);
      case NewFile(level, f) =>
        r := PutVarint64(r, level);
        r := PutFile(r, f);
      case _ => r := PutVarint64(r, item.n);
    }
    assert r == dst + Varint(TagOf(item)) + PayloadBytes(item);
    assert r == dst + ItemBytes(item);
  }

  method PutFile(dst: Bytes, f: FileMetaData) returns (r: Bytes)
    ensures r == dst + FileBytes(f)
  {
    hide Varint, LengthPrefixed;
    r := PutVarint64(dst, f.number);
    r := PutVarint64(r, f.fileSize);
    r := PutSlice(r, f.smallest);
    r := PutSlice(r, f.largest);
    assert r == dst + FileBytes(f);
  }

  lemma {:induction false} BytesAppend(items: seq<Item>, item: Item)
    ensures ItemsBytes(items + [item]) == ItemsBytes(items) + ItemBytes(item)
    decreases |items|
  {
    hide ItemBytes;
    if items == [] {
      assert items + [item] == [item] && ItemsBytes([item]) == ItemBytes(item) + ItemsBytes([]);
    } else {
      assert (items + [item])[1..] == items[1..] + [item];
      BytesAppend(items[1..], item);
    }
  }

  /** `EncodeTo`; the deleted files come in the order of a list of them. */
  method EncodeTo(dst: Bytes, e: VersionEdit, ds: seq<(nat, nat)>) returns (r: Bytes)
    ensures r == dst + ItemsBytes(ItemsOf(e, ds))
  {
    hide ItemBytes, ItemsBytes, ItemsOf;
    var items := ItemsOf(e, ds);
    r := dst;
    NoItems();
    assert items[..0] == [];
    for i := 0 to |items|
      invariant r == dst + ItemsBytes(items[..i])
    {
      r := PutItem(r, items[i]);
      BytesAppend(items[..i], items[i]);
      assert items[..i + 1] == items[..i] + [items[i]];
    }
    assert items[..|items|] == items;
  }

  lemma NoItems()
    ensures ItemsBytes([]) == []
  {
  }

  /** `DecodeFrom`, into an edit that was cleared. */
  method DecodeFrom(src: Bytes) returns (r: Option<VersionEdit>)
    ensures r == Parsed(src, 0, EMPTY)
  {
    hide Get32, PayloadAt, Apply;
    var e, p: nat := EMPTY, 0;
    var tag := Read32(src, p);
    while tag.Some?
      invariant p <= |src| && tag == Get32(src, p)
      invariant Parsed(src, p, e) == Parsed(src, 0, EMPTY)
      decreases |src| - p
    {
      var item := ReadPayload(src, tag.value.0, tag.value.1);
      if item.None? {
        return None;
      }
      e, p := Apply(e, item.value.0), item.value.1;
      tag := Read32(src, p);
    }
    r := if p == |src| then Some(e) else None;
  }

  method ReadPayload(s: Bytes, tag: nat, p: nat) returns (r: Option<(Item, nat)>)
    requires p <= |s|
    ensures r == PayloadAt(tag, s, p)
  {
    hide Get32, Get64, GetSlice, FileAt;
    r := None;
    if tag == 1 {
      var name := ReadSlice(s, p);
      if name.Some? {
        r := Some((Comparator(name.value.0), name.value.1));
      }
    } else if tag == 2 || tag == 9 || tag == 3 || tag == 4 {
      var n := Read64(s, p);
      if n.Some? {
        var v := n.value.0;
        r := Some((if tag == 2 then LogNumber(v) else if tag == 9 then PrevLogNumber(v)
                   else if tag == 3 then NextFileNumber(v) else LastSequence(v), n.value.1));
      }
    } else if tag == 5 || tag == 6 || tag == 7 {
      var level := Read32(s, p);
      if level.None? || level.value.0 >= NUM_LEVELS {
        return;
      }
      r := ReadLeveled(s, tag, level.value.0, level.value.1);
    }
  }

  method ReadLeveled(s: Bytes, tag: nat, level: nat, p: nat) returns (r: Option<(Item, nat)>)
    requires p <= |s| && (tag == 5 || tag == 6 || tag == 7)
    ensures r == if tag == 5 then (match GetSlice(s, p) case None => None case Some((key, q)) => Some((CompactPointer(level, key), q)))
                 else if tag == 6 then (match Get64(s, p) case None => None case Some((n, q)) => Some((DeletedFile(level, n), q)))
                 else (match FileAt(s, p) case None => None case Some((f, q)) => Some((NewFile(level, f), q)))
  {
    hide Get64, GetSlice, FileAt;
    r := None;
    if tag == 5 {
      var key := ReadSlice(s, p);
      if key.Some? {
        r := Some((CompactPointer(level, key.value.0), key.value.1));
      }
    } else if tag == 6 {
      var n := Read64(s, p);
      if n.Some? {
        r := Some((DeletedFile(level, n.value.0), n.value.1));
      }
    } else {
      var f := ReadFile(s, p);
      if f.Some? {
        r := Some((NewFile(level, f.value.0), f.value.1));
      }
    }
  }

  method ReadFile(s: Bytes, p: nat) returns (r: Option<(FileMetaData, nat)>)
    requires p <= |s|
    ensures r == FileAt(s, p)
  {
    hide Get64, GetSlice;
    var number := Read64(s, p);
    if number.None? {
      return None;
    }
    var fileSize := Read64(s, number.value.1);
    if fileSize.None? {
      return None;
    }
    var smallest := ReadSlice(s, fileSize.value.1);
    if smallest.None? {
      return None;
    }
    var largest := ReadSlice(s, smallest.value.1);
    r := if largest.None? then None
         else Some((FileMetaData(number.value.0, fileSize.value.0, smallest.value.0, largest.value.0), largest.value.1));
  }
}
