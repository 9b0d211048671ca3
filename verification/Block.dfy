/** Blocks of key-value pairs with prefix-compressed keys and restart points
    (table/block_builder.cc, table/block.cc). */
module Block {
  import opened History
  import opened Coding

  datatype KeyValue = KeyValue(key: Bytes, val: Bytes)

  /** The comparator: `less(a, b)` when `Compare(a, b) < 0`. */
  type Order = (Bytes, Bytes) -> bool

  ghost predicate IsOrder(less: Order) {
    && (forall a :: !less(a, a))
    && (forall a, b, c :: less(a, b) && less(b, c) ==> less(a, c))
    && (forall a, b :: a != b ==> less(a, b) || less(b, a))
  }

  ghost predicate Increasing(less: Order, es: seq<KeyValue>) {
    forall i, j :: 0 <= i < j < |es| ==> less(es[i].key, es[j].key)
  }

  // ---------- the format ----------

  ghost predicate IsSharedLength(a: Bytes, b: Bytes, n: nat) {
    && n <= |a| && n <= |b| && a[..n] == b[..n]
    && (n < |a| && n < |b| ==> a[n] != b[n])
  }

  /** The length of the longest common prefix. */
  function SharedLength(a: Bytes, b: Bytes): (n: nat)
    ensures IsSharedLength(a, b, n)
  {
    if a != [] && b != [] && a[0] == b[0] then
      assert a == [a[0]] + a[1..] && b == [b[0]] + b[1..];
      1 + SharedLength(a[1..], b[1..])
    else 0
  }

  /** How many bytes of its key an entry takes over from the one before; none at a restart point. */
  function Shared(es: seq<KeyValue>, i: nat, interval: nat): (n: nat)
    requires i < |es| && 0 < interval
    ensures n <= |es[i].key| && (0 < i ==> n <= |es[i - 1].key| && es[i - 1].key[..n] == es[i].key[..n])
    ensures i % interval == 0 ==> n == 0
  {
    if i % interval == 0 then 0 else SharedLength(es[i - 1].key, es[i].key)
  }

  function Header(shared: nat, e: KeyValue): Bytes
    requires shared <= |e.key|
  {
    Varint(shared) + (Varint(|e.key| - shared) + Varint(|e.val|))
  }

  function EntryBytes(shared: nat, e: KeyValue): (r: Bytes)
    requires shared <= |e.key|
    ensures |r| >= 3
  {
    Header(shared, e) + (e.key[shared..] + e.val)
  }

  function DataOf(es: seq<KeyValue>, interval: nat): Bytes
    requires 0 < interval
  {
    if es == [] then []
    else DataOf(es[..|es| - 1], interval) + EntryBytes(Shared(es, |es| - 1, interval), es[|es| - 1])
  }

  /** The offset of an entry. */
  function Off(es: seq<KeyValue>, i: nat, interval: nat): nat
    requires i <= |es| && 0 < interval
  {
    |DataOf(es[..i], interval)|
  }

  /** Every entry whose number is a multiple of the interval is a restart point. */
  function RestartsOf(es: seq<KeyValue>, interval: nat): seq<nat>
    requires 0 < interval
  {
    if |es| <= 1 then [0]
    else
      var n := |es| - 1;
      RestartsOf(es[..n], interval) + if n % interval == 0 then [|DataOf(es[..n], interval)|] else []
  }

  ghost predicate Fits32(xs: seq<nat>) {
    forall i :: 0 <= i < |xs| ==> xs[i] < 0x1_0000_0000
  }

  function Fixed32s(xs: seq<nat>): Bytes
    requires Fits32(xs)
  {
    if xs == [] then [] else Fixed32s(xs[..|xs| - 1]) + EncodeFixed32(xs[|xs| - 1])
  }

  lemma {:induction false} OffStep(es: seq<KeyValue>, i: nat, interval: nat)
    requires i < |es| && 0 < interval
    ensures Off(es, i + 1, interval) == Off(es, i, interval) + |EntryBytes(Shared(es, i, interval), es[i])|
    ensures DataOf(es[..i + 1], interval) == DataOf(es[..i], interval) + EntryBytes(Shared(es, i, interval), es[i])
  {
    hide EntryBytes, SharedLength;
    assert es[..i + 1][..i] == es[..i];
    assert Shared(es[..i + 1], i, interval) == Shared(es, i, interval);
  }

  lemma {:induction false} OffIncreases(es: seq<KeyValue>, i: nat, j: nat, interval: nat)
    requires i <= j <= |es| && 0 < interval
    ensures Off(es, i, interval) <= Off(es, j, interval) && (i < j ==> Off(es, i, interval) + 3 <= Off(es, j, interval))
    decreases j - i
  {
    hide DataOf, EntryBytes, SharedLength;
    if i < j {
      OffIncreases(es, i, j - 1, interval);
      OffStep(es, j - 1, interval);
    }
  }

  lemma {:induction false} DataPrefix(es: seq<KeyValue>, i: nat, interval: nat)
    requires i <= |es| && 0 < interval
    ensures DataOf(es[..i], interval) <= DataOf(es, interval)
    decreases |es| - i
  {
    if i < |es| {
      DataPrefix(es, i + 1, interval);
      OffStep(es, i, interval);
    } else {
      assert es[..i] == es;
    }
  }

  /** An entry stands at its offset. */
  lemma EntryStands(data: Bytes, es: seq<KeyValue>, i: nat, interval: nat)
    requires i < |es| && 0 < interval && DataOf(es, interval) <= data
    ensures StandsAt(data, Off(es, i, interval), EntryBytes(Shared(es, i, interval), es[i]))
    ensures Off(es, i + 1, interval) <= |DataOf(es, interval)|
  {
    hide DataOf, EntryBytes;
    OffStep(es, i, interval);
    DataPrefix(es, i + 1, interval);
    var b := EntryBytes(Shared(es, i, interval), es[i]);
    var p := Off(es, i, interval);
    assert data[p..p + |b|] == data[..|DataOf(es, interval)|][..p + |b|][p..];
    assert data[..p + |b|] == DataOf(es[..i + 1], interval);
  }

  // ---------- building ----------

  class BlockBuilder {
    const interval: nat
    var buffer: Bytes
    var restarts: seq<nat>
    var counter: nat
    var lastKey: Bytes
    ghost var entries: seq<KeyValue>

    ghost predicate Valid()
      reads this
    {
      && 0 < interval && buffer == DataOf(entries, interval) && restarts == RestartsOf(entries, interval)
      && counter == (if entries == [] then 0 else (|entries| - 1) % interval + 1)
      && lastKey == (if entries == [] then [] else entries[|entries| - 1].key)
    }

    constructor (interval: nat)
      requires interval >= 1
      ensures Valid() && this.interval == interval && entries == []
    {
      this.interval, buffer, restarts, counter, lastKey := interval, [], [0], 0, [];
      entries := [];
    }

    /** The source also asks for the keys to come in increasing order. */
    method Add(key: Bytes, val: Bytes)
      requires Valid()
      modifies this
      ensures Valid() && entries == old(entries) + [KeyValue(key, val)]
    {
      hide DataOf, EntryBytes, RestartsOf, SharedLength;
      ghost var es := entries + [KeyValue(key, val)];
      CounterSays(|entries|, interval);
      AddedEntry(entries, KeyValue(key, val), interval);
      var shared := 0;
      if counter < interval {
        shared := FindShared(lastKey, key);
        if entries == [] { NothingShared(key); }
      } else {
        restarts := restarts + [|buffer|];
        counter := 0;
      }
      assert shared == Shared(es, |entries|, interval);
      buffer := buffer + EntryBytes(shared, KeyValue(key, val));
      lastKey := lastKey[..shared] + key[shared..];
      counter := counter + 1;
      entries := es;
    }

    method Finish() returns (block: Bytes)
      requires Valid() && Fits(entries, interval)
      ensures block == BlockOf(entries, interval)
    {
      hide DataOf, RestartsOf;
      block := PutFixed32s(buffer, restarts);
      block := block + EncodeFixed32(|restarts|);
    }
  }

  /** Appends an array of offsets. */
  method PutFixed32s(dst: Bytes, xs: seq<nat>) returns (r: Bytes)
    requires Fits32(xs)
    ensures r == dst + Fixed32s(xs)
  {
    r := dst;
    for i := 0 to |xs|
      invariant r == dst + Fixed32s(xs[..i])
    {
      assert xs[..i + 1][..i] == xs[..i];
      r := r + EncodeFixed32(xs[i]);
    }
    assert xs[..|xs|] == xs;
  }

  /** Offsets and counts that go into 32 bits. */
  ghost predicate Fits(es: seq<KeyValue>, interval: nat)
    requires 0 < interval
  {
    Fits32(RestartsOf(es, interval)) && |DataOf(es, interval)| + 4 * |RestartsOf(es, interval)| + 4 < 0x1_0000_0000
  }

  function BlockOf(es: seq<KeyValue>, interval: nat): Bytes
    requires 0 < interval && Fits(es, interval)
  {
    DataOf(es, interval) + Fixed32s(RestartsOf(es, interval)) + EncodeFixed32(|RestartsOf(es, interval)|)
  }

  /** The loop in `Add` that compares a key with the one before it. */
  method FindShared(lastKey: Bytes, key: Bytes) returns (shared: nat)
    ensures shared == SharedLength(lastKey, key)
  {
    shared := 0;
    while shared < |lastKey| && shared < |key| && lastKey[shared] == key[shared]
      invariant shared <= |lastKey| && shared <= |key| && lastKey[..shared] == key[..shared]
    {
      shared := shared + 1;
    }
    SharedIsUnique(lastKey, key, shared, SharedLength(lastKey, key));
  }

  lemma NothingShared(key: Bytes)
    ensures SharedLength([], key) == 0
  {
  }

  lemma SharedIsUnique(a: Bytes, b: Bytes, n: nat, m: nat)
    requires IsSharedLength(a, b, n) && IsSharedLength(a, b, m)
    ensures n == m
  {
    AgreesBelow(a, b, m, n);
    AgreesBelow(a, b, n, m);
  }

  lemma AgreesBelow(a: Bytes, b: Bytes, m: nat, n: nat)
    requires m <= |a| && m <= |b| && a[..m] == b[..m]
    ensures n < m ==> a[n] == b[n]
  {
    if n < m {
      assert a[..m][n] == b[..m][n];
    }
  }

  lemma ModStep(n: nat, interval: nat)
    requires 0 < n && 0 < interval
    ensures n % interval == if (n - 1) % interval + 1 == interval then 0 else (n - 1) % interval + 1
  {
    var q, r := (n - 1) / interval, (n - 1) % interval;
    assert n == q * interval + (r + 1);
    if r + 1 == interval {
      assert n == (q + 1) * interval;
      Remainder(n, q + 1, 0, interval);
    } else {
      Remainder(n, q, r + 1, interval);
    }
  }

  lemma AtLeastOnce(k: int, interval: int)
    requires interval >= 0
    ensures k >= 1 ==> k * interval >= interval
    ensures k <= -1 ==> k * interval <= -interval
  {
    assert (k - 1) * interval == k * interval - interval && (k + 1) * interval == k * interval + interval;
  }

  lemma Remainder(n: nat, q: nat, r: nat, interval: nat)
    requires n == q * interval + r && r < interval
    ensures n % interval == r && n / interval == q
  {
    var k: int := n / interval - q;
    assert (n / interval) * interval + n % interval == n;
    assert k * interval == r - n % interval;
    AtLeastOnce(k, interval);
  }

  /** What the counter tells about the number of the next entry. */
  lemma CounterSays(n: nat, interval: nat)
    requires 0 < interval
    ensures var counter := if n == 0 then 0 else (n - 1) % interval + 1;
            && counter <= interval
            && (counter < interval ==> n % interval == counter)
            && (counter == interval ==> n % interval == 0)
  {
    if n > 0 { ModStep(n, interval); }
  }

  lemma AddedEntry(es: seq<KeyValue>, e: KeyValue, interval: nat)
    requires 0 < interval
    ensures var all := es + [e];
            && DataOf(all, interval) == DataOf(es, interval) + EntryBytes(Shared(all, |es|, interval), e)
            && RestartsOf(all, interval) == RestartsOf(es, interval) +
                 if es != [] && |es| % interval == 0 then [|DataOf(es, interval)|] else []
  {
    assert (es + [e])[..|es|] == es;
  }

  // ---------- restart points ----------

  /** The number of the entry at restart point `j`. */
  function Start(j: nat, interval: nat): nat {
    j * interval
  }

  lemma StartStep(j: nat, interval: nat)
    ensures Start(j + 1, interval) == Start(j, interval) + interval
  {
  }

  lemma {:induction false} StartIncreases(j: nat, k: nat, interval: nat)
    requires j <= k
    ensures Start(j, interval) <= Start(k, interval)
    ensures j < k ==> Start(j, interval) + interval <= Start(k, interval)
    decreases k - j
  {
    if j < k {
      StartIncreases(j, k - 1, interval);
      StartStep(k - 1, interval);
    }
  }

  /** A multiple of the interval that is not between two neighbouring ones is one of them. */
  lemma NextMultiple(n: nat, j: nat, interval: nat)
    requires 0 < interval && Start(j, interval) < n <= Start(j + 1, interval)
    ensures n % interval == 0 <==> n == Start(j + 1, interval)
  {
    StartStep(j, interval);
    if n == Start(j + 1, interval) {
      Remainder(n, j + 1, 0, interval);
    } else {
      Remainder(n, j, n - Start(j, interval), interval);
    }
  }

  ghost predicate RestartsAre(es: seq<KeyValue>, interval: nat, rs: seq<nat>)
    requires 0 < interval
  {
    && rs != [] && (es == [] ==> |rs| == 1)
    && (es != [] ==> Start(|rs| - 1, interval) < |es| <= Start(|rs|, interval))
    && forall j :: 0 <= j < |rs| ==> IsRestart(es, interval, j, rs[j])
  }

  ghost predicate IsRestart(es: seq<KeyValue>, interval: nat, j: nat, offset: nat)
    requires 0 < interval
  {
    Start(j, interval) <= |es| && offset == Off(es, Start(j, interval), interval)
  }

  lemma FirstRestart(es: seq<KeyValue>, interval: nat)
    requires 0 < interval
    ensures Start(0, interval) == 0 && Start(1, interval) == interval && IsRestart(es, interval, 0, 0)
  {
    assert es[..0] == [];
  }

  lemma NewRestart(es: seq<KeyValue>, interval: nat, j: nat)
    requires 0 < interval && es != [] && Start(j, interval) == |es| - 1
    ensures IsRestart(es, interval, j, |DataOf(es[..|es| - 1], interval)|)
  {
  }

  lemma RestartStays(es: seq<KeyValue>, interval: nat, j: nat, offset: nat)
    requires 0 < interval && es != [] && IsRestart(es[..|es| - 1], interval, j, offset)
    ensures IsRestart(es, interval, j, offset)
  {
    hide Start;
    assert es[..|es| - 1][..Start(j, interval)] == es[..Start(j, interval)];
  }

  lemma {:induction false} RestartsAreRight(es: seq<KeyValue>, interval: nat)
    requires 0 < interval
    ensures RestartsAre(es, interval, RestartsOf(es, interval))
    decreases |es|
  {
    hide Start, IsRestart, DataOf;
    if |es| <= 1 {
      FirstRestart(es, interval);
    } else {
      var n := |es| - 1;
      var init := es[..n];
      var rs := RestartsOf(init, interval);
      RestartsAreRight(init, interval);
      NextMultiple(n, |rs| - 1, interval);
      StartStep(|rs|, interval);
      forall j | 0 <= j < |rs|
        ensures IsRestart(es, interval, j, rs[j])
      {
        RestartStays(es, interval, j, rs[j]);
      }
      if n == Start(|rs|, interval) {
        NewRestart(es, interval, |rs|);
      }
    }
  }

  // ---------- iterating ----------

  /** The three lengths of an entry, and where its key delta starts. */
  datatype Decoded = Decoded(shared: nat, nonShared: nat, valueLength: nat, p: nat)

  method DecodeEntry(data: Bytes, start: nat, limit: nat) returns (r: Option<Decoded>)
    requires start <= limit <= |data|
    ensures r == EntryHeader(data, start, limit)
  {
    if limit - start < 3 {
      return None;
    }
    if data[start] < 128 && data[start + 1] < 128 && data[start + 2] < 128 {
      // fast path: all three values are encoded in one byte each
      r := Some(Decoded(data[start], data[start + 1], data[start + 2], start + 3));
    } else {
      var a := GetVarint32(data, start, limit);
      if a.None? {
        return None;
      }
      var b := GetVarint32(data, a.value.1, limit);
      if b.None? {
        return None;
      }
      var c := GetVarint32(data, b.value.1, limit);
      if c.None? {
        return None;
      }
      r := Some(Decoded(a.value.0, b.value.0, c.value.0, c.value.1));
    }
    if limit - r.value.p < r.value.nonShared + r.value.valueLength {
      r := None;
    }
  }

  function Varint32At(data: Bytes, p: nat, limit: nat): Option<(nat, nat)>
    requires limit <= |data|
  {
    match ReadVarint(data, p, limit, 5)
    case None => None
    case Some((v, q)) => Some((v % 0x1_0000_0000, q))
  }

  function EntryHeader(data: Bytes, start: nat, limit: nat): Option<Decoded>
    requires start <= limit <= |data|
  {
    if limit - start < 3 then None
    else
      match Varint32At(data, start, limit)
      case None => None
      case Some((shared, p)) =>
        match Varint32At(data, p, limit)
        case None => None
        case Some((nonShared, q)) =>
          match Varint32At(data, q, limit)
          case None => None
          case Some((length, r)) => if limit - r < nonShared + length then None else Some(Decoded(shared, nonShared, length, r))
  }

  lemma Varint32Written(data: Bytes, p: nat, limit: nat, v: nat)
    requires StandsAt(data, p, Varint(v)) && p + |Varint(v)| <= limit <= |data| && v < 0x1_0000_0000
    ensures Varint32At(data, p, limit) == Some((v, p + |Varint(v)|))
  {
    Varint32Length(v);
    VarintRoundTrip(v, data, p, limit, 5);
  }

  /** An entry decodes to what was encoded. */
  lemma EntryDecodes(data: Bytes, p: nat, limit: nat, shared: nat, e: KeyValue)
    requires shared <= |e.key| < 0x1_0000_0000 && |e.val| < 0x1_0000_0000
    requires StandsAt(data, p, EntryBytes(shared, e)) && p + |EntryBytes(shared, e)| <= limit <= |data|
    ensures EntryHeader(data, p, limit) == Some(Decoded(shared, |e.key| - shared, |e.val|, p + |Header(shared, e)|))
    ensures var q := p + |Header(shared, e)|;
            && StandsAt(data, q, e.key[shared..]) && StandsAt(data, q + |e.key| - shared, e.val)
            && q + |e.key| - shared + |e.val| == p + |EntryBytes(shared, e)|
  {
    hide Header, EntryHeader, StandsAt;
    StandsPart(data, p, Header(shared, e), e.key[shared..] + e.val);
    StandsPart(data, p + |Header(shared, e)|, e.key[shared..], e.val);
    HeaderDecodes(data, p, limit, shared, e);
  }

  lemma HeaderDecodes(data: Bytes, p: nat, limit: nat, shared: nat, e: KeyValue)
    requires shared <= |e.key| < 0x1_0000_0000 && |e.val| < 0x1_0000_0000
    requires StandsAt(data, p, Header(shared, e)) && p + |Header(shared, e)| + |e.key| - shared + |e.val| <= limit <= |data|
    ensures EntryHeader(data, p, limit) == Some(Decoded(shared, |e.key| - shared, |e.val|, p + |Header(shared, e)|))
  {
    hide Varint32At, StandsAt, Varint;
    var a, b, c := Varint(shared), Varint(|e.key| - shared), Varint(|e.val|);
    StandsPart(data, p, a, b + c);
    StandsPart(data, p + |a|, b, c);
    Varint32Written(data, p, limit, shared);
    Varint32Written(data, p + |a|, limit, |e.key| - shared);
    Varint32Written(data, p + |a| + |b|, limit, |e.val|);
  }

  /** The bytes of a block: entries, then offsets of restart points. */
  ghost predicate Layout(data: Bytes, restarts: nat, num: nat, es: seq<KeyValue>, interval: nat) {
    && 0 < interval && restarts == |DataOf(es, interval)| < 0x1_0000_0000 && DataOf(es, interval) <= data
    && num == |RestartsOf(es, interval)| && restarts + 4 * num <= |data|
    && forall j :: 0 <= j < num ==> RestartStands(data, restarts, j, RestartsOf(es, interval)[j])
  }

  ghost predicate RestartStands(data: Bytes, restarts: nat, j: int, offset: nat) {
    0 <= j && restarts + 4 * j + 4 <= |data| && DecodeFixed32(data[restarts + 4 * j..]) == offset
  }

  lemma {:induction false} KeyFits(es: seq<KeyValue>, i: nat, interval: nat)
    requires i < |es| && 0 < interval
    ensures |es[i].key| <= Off(es, i + 1, interval) && |es[i].val| <= Off(es, i + 1, interval)
  {
    hide Varint, SharedLength, DataOf;
    OffStep(es, i, interval);
    if i > 0 && Shared(es, i, interval) > 0 {
      KeyFits(es, i - 1, interval);
    }
  }

  /** What decoding finds at the offset of an entry. */
  lemma EntryAt(data: Bytes, restarts: nat, num: nat, es: seq<KeyValue>, interval: nat, i: nat)
    requires Layout(data, restarts, num, es, interval) && i < |es|
    ensures var p, shared := Off(es, i, interval), Shared(es, i, interval);
            && p < Off(es, i + 1, interval) <= restarts <= |data|
            && EntryHeader(data, p, restarts).Some?
            && var d := EntryHeader(data, p, restarts).value;
               && d.shared == shared && d.nonShared == |es[i].key| - shared && d.valueLength == |es[i].val|
               && StandsAt(data, d.p, es[i].key[shared..]) && StandsAt(data, d.p + d.nonShared, es[i].val)
               && d.p + d.nonShared + d.valueLength == Off(es, i + 1, interval)
  {
    hide DataOf, EntryBytes, Header, EntryHeader, SharedLength, RestartsOf, Varint;
    EntryStands(data, es, i, interval);
    OffStep(es, i, interval);
    KeyFits(es, i, interval);
    EntryDecodes(data, Off(es, i, interval), restarts, Shared(es, i, interval), es[i]);
  }

  lemma LayoutRestart(data: Bytes, restarts: nat, num: nat, es: seq<KeyValue>, interval: nat, j: nat)
    requires Layout(data, restarts, num, es, interval) && j < num
    ensures 0 < interval && Start(j, interval) <= |es| && (es != [] ==> Start(j, interval) < |es| <= Start(num, interval))
    ensures restarts + 4 * j + 4 <= |data| && DecodeFixed32(data[restarts + 4 * j..]) == Off(es, Start(j, interval), interval)
  {
    RestartsAreRight(es, interval);
    assert RestartStands(data, restarts, j, RestartsOf(es, interval)[j]);
    assert IsRestart(es, interval, j, RestartsOf(es, interval)[j]);
    StartIncreases(j, num - 1, interval);
  }

  lemma {:induction false} Fixed32sLength(xs: seq<nat>)
    requires Fits32(xs)
    ensures |Fixed32s(xs)| == 4 * |xs|
    decreases |xs|
  {
    hide EncodeFixed32;
    if xs != [] {
      Fixed32sLength(xs[..|xs| - 1]);
    }
  }

  lemma {:induction false} Fixed32sAt(xs: seq<nat>, j: nat)
    requires Fits32(xs) && j < |xs|
    ensures StandsAt(Fixed32s(xs), 4 * j, EncodeFixed32(xs[j]))
    decreases |xs|
  {
    hide EncodeFixed32, StandsAt;
    var n := |xs| - 1;
    if j < n {
      Fixed32sAt(xs[..n], j);
      StandsInFront(Fixed32s(xs[..n]), EncodeFixed32(xs[n]), 4 * j, EncodeFixed32(xs[j]));
    } else {
      Fixed32sLength(xs[..n]);
      CountStands([], Fixed32s(xs[..n]), EncodeFixed32(xs[n]));
      assert [] + Fixed32s(xs[..n]) + EncodeFixed32(xs[n]) == Fixed32s(xs);
    }
  }

  lemma StandsInFront(a: Bytes, b: Bytes, p: nat, part: Bytes)
    requires StandsAt(a, p, part)
    ensures StandsAt(a + b, p, part)
  {
    assert (a + b)[p..p + |part|] == a[p..p + |part|];
  }

  lemma DecodesAt(data: Bytes, p: nat, v: nat)
    requires v < 0x1_0000_0000 && StandsAt(data, p, EncodeFixed32(v))
    ensures p + 4 <= |data| && DecodeFixed32(data[p..]) == v
  {
    hide EncodeFixed32, DecodeFixed32;
    assert data[p..] == EncodeFixed32(v) + data[p + 4..];
    Fixed32RoundTrip(v, data[p + 4..]);
  }

  lemma StandsInside(data: Bytes, a: Bytes, b: Bytes, tail: Bytes, p: nat, part: Bytes)
    requires data == a + b + tail && StandsAt(b, p, part)
    ensures StandsAt(data, |a| + p, part)
  {
    assert data[|a| + p..|a| + p + |part|] == b[p..p + |part|];
  }

  /** A finished block has the layout, and its last word counts the restart points. */
  lemma BlockHasLayout(es: seq<KeyValue>, interval: nat)
    requires 0 < interval && Fits(es, interval)
    ensures var data := BlockOf(es, interval);
            && |data| >= 4
            && var num := DecodeFixed32(data[|data| - 4..]);
               && 0 < num && |data| >= (1 + num) * 4
               && Layout(data, |data| - (1 + num) * 4, num, es, interval)
  {
    hide DataOf, EncodeFixed32, DecodeFixed32, StandsAt;
    var data, d, rs := BlockOf(es, interval), DataOf(es, interval), RestartsOf(es, interval);
    var count := EncodeFixed32(|rs|);
    RestartsAreRight(es, interval);
    Fixed32sLength(rs);
    var p := |d| + 4 * |rs|;
    CountStands(d, Fixed32s(rs), count);
    DecodesAt(data, p, |rs|);
    forall j | 0 <= j < |rs|
      ensures RestartStands(data, |d|, j, rs[j])
    {
      Fixed32sAt(rs, j);
      StandsInside(data, d, Fixed32s(rs), count, 4 * j, EncodeFixed32(rs[j]));
      DecodesAt(data, |d| + 4 * j, rs[j]);
    }
    PrefixOf(d, Fixed32s(rs) + count, data);
  }

  lemma CountStands(a: Bytes, b: Bytes, c: Bytes)
    ensures StandsAt(a + b + c, |a| + |b|, c)
  {
  }

  lemma PrefixOf(a: Bytes, b: Bytes, data: Bytes)
    requires |data| == |a| + |b| && data[..|a|] == a
    ensures a <= data
  {
  }

  class Iter {
    const data: Bytes
    const restarts: nat
    const numRestarts: nat
    const less: Order
    ghost const es: seq<KeyValue>
    ghost const interval: nat
    var current: nat
    var restartIndex: nat
    var key: Bytes
    var valuePos: nat
    var valueLength: nat

    ghost predicate Ok() {
      Layout(data, restarts, numRestarts, es, interval) && 0 < numRestarts
    }

    /** `Block` and `NewIterator`: the restart array is found from the end of the block. */
    constructor (data: Bytes, less: Order, ghost es: seq<KeyValue>, ghost interval: nat)
      requires 0 < interval && Fits(es, interval) && data == BlockOf(es, interval)
      ensures Ok() && At(|es|) && this.es == es && this.interval == interval && this.less == less
    {
      hide BlockOf, Fits, Layout;
      BlockHasLayout(es, interval);
      var num := DecodeFixed32(data[|data| - 4..]);
      this.data, this.less, this.es, this.interval := data, less, es, interval;
      numRestarts, restarts := num, |data| - (1 + num) * 4;
      current, restartIndex := |data| - (1 + num) * 4, num;
      key, valuePos, valueLength := [], 0, 0;
    }

    /** The iterator is at entry `i`, or past the last one. */
    ghost predicate At(i: nat)
      requires Ok()
      reads this
    {
      && i <= |es|
      && if i == |es| then current == restarts && restartIndex == numRestarts
         else
           && current == Off(es, i, interval) && key == es[i].key
           && valueLength == |es[i].val| && StandsAt(data, valuePos, es[i].val)
           && NextEntryOffset() == Off(es, i + 1, interval)
           && restartIndex < numRestarts && Start(restartIndex, interval) <= i <= Start(restartIndex + 1, interval)
    }

    /** Parsing would yield entry `i`. */
    ghost predicate Ready(i: nat)
      requires Ok()
      reads this
    {
      && i <= |es| && NextEntryOffset() == Off(es, i, interval)
      && (i < |es| ==> Shared(es, i, interval) <= |key| && key[..Shared(es, i, interval)] == es[i].key[..Shared(es, i, interval)])
      && restartIndex < numRestarts && Start(restartIndex, interval) <= i
    }

    function NextEntryOffset(): nat
      reads this
    {
      valuePos + valueLength
    }

    predicate Valid()
      reads this
    {
      current < restarts
    }

    function GetRestartPoint(index: nat): nat
      requires Ok() && index < numRestarts
    {
      LayoutRestart(data, restarts, numRestarts, es, interval, index);
      DecodeFixed32(data[restarts + 4 * index..])
    }

    method SeekToRestartPoint(index: nat)
      requires Ok() && index < numRestarts
      modifies this
      ensures Start(index, interval) <= |es| && Ready(Start(index, interval)) && restartIndex == index
    {
      hide Layout, Off, SharedLength, DecodeFixed32, Start;
      LayoutRestart(data, restarts, numRestarts, es, interval, index);
      key := [];
      restartIndex := index;
      valuePos, valueLength := GetRestartPoint(index), 0;
      if Start(index, interval) < |es| { RestartIsWhole(es, index, interval); }
    }

    /** Keeps the restart index in step with the current entry. */
    method AdvanceRestart(ghost i: nat)
      requires Ok() && i < |es| && current == Off(es, i, interval) && restartIndex < numRestarts && Start(restartIndex, interval) <= i
      modifies this`restartIndex
      ensures restartIndex < numRestarts && Start(restartIndex, interval) <= i <= Start(restartIndex + 1, interval)
    {
      hide Layout, Off, Start;
      while restartIndex + 1 < numRestarts && GetRestartPoint(restartIndex + 1) < current
        invariant restartIndex < numRestarts && Start(restartIndex, interval) <= i
        decreases numRestarts - restartIndex
      {
        RestartOrder(data, restarts, numRestarts, es, interval, restartIndex + 1, i);
        restartIndex := restartIndex + 1;
      }
      if restartIndex + 1 < numRestarts {
        RestartOrder(data, restarts, numRestarts, es, interval, restartIndex + 1, i);
      } else {
        LayoutRestart(data, restarts, numRestarts, es, interval, restartIndex);
      }
    }

    method ParseNextKey(ghost i: nat) returns (more: bool)
      requires Ok() && Ready(i)
      modifies this
      ensures At(i) && (more <==> i < |es|)
    {
      hide Layout, StandsAt, EntryHeader, Off, Shared, Start;
      current := NextEntryOffset();
      OffsetOfEntry(data, restarts, numRestarts, es, interval, i);
      if current >= restarts {
        current, restartIndex := restarts, numRestarts;
        return false;
      }
      EntryAt(data, restarts, numRestarts, es, interval, i);
      var d := DecodeEntry(data, current, restarts);
      if d.None? || |key| < d.value.shared {
        // never in a block that a builder made; the source reports corruption
        assert false;
      }
      var e := d.value;
      PutTogether(data, e.p, es[i].key, e.shared, key);
      key := key[..e.shared] + data[e.p..e.p + e.nonShared];
      valuePos, valueLength := e.p + e.nonShared, e.valueLength;
      AdvanceRestart(i);
      more := true;
    }

    method Next(ghost i: nat)
      requires Ok() && i < |es| && At(i)
      modifies this
      ensures At(i + 1)
    {
      AfterEntry(i);
      var _ := ParseNextKey(i + 1);
    }

    lemma AfterEntry(i: nat)
      requires Ok() && i < |es| && At(i)
      ensures Ready(i + 1)
    {
    }

    method Prev(ghost i: nat)
      requires Ok() && i < |es| && At(i)
      modifies this
      ensures At(if i == 0 then |es| else i - 1)
    {
      hide Layout, Off, Start, StandsAt, Shared;
      LayoutInterval(data, restarts, numRestarts, es, interval);
      var original := current;
      while GetRestartPoint(restartIndex) >= original
        invariant restartIndex < numRestarts && original == Off(es, i, interval)
        invariant i <= Start(restartIndex + 1, interval)
        decreases restartIndex
      {
        RestartOrder(data, restarts, numRestarts, es, interval, restartIndex, i);
        if restartIndex == 0 {
          FirstStart(interval);
          current, restartIndex := restarts, numRestarts;
          return;
        }
        restartIndex := restartIndex - 1;
      }
      RestartOrder(data, restarts, numRestarts, es, interval, restartIndex, i);
      SeekToRestartPoint(restartIndex);
      ghost var k := Start(restartIndex, interval);
      while true
        invariant k < i && Ready(k)
        decreases i - k
      {
        var more := ParseNextKey(k);
        OffsetOfEntry(data, restarts, numRestarts, es, interval, k + 1);
        OffIncreases(es, k + 1, i, interval);
        if !(more && NextEntryOffset() < original) {
          break;
        }
        AfterEntry(k);
        k := k + 1;
      }
    }

    method SeekToFirst()
      requires Ok()
      modifies this
      ensures At(0)
    {
      SeekToRestartPoint(0);
      FirstStart(interval);
      var _ := ParseNextKey(0);
    }

    method SeekToLast()
      requires Ok()
      modifies this
      ensures At(if es == [] then 0 else |es| - 1)
    {
      hide Layout, Off, Start, StandsAt, Shared;
      LayoutRestart(data, restarts, numRestarts, es, interval, numRestarts - 1);
      SeekToRestartPoint(numRestarts - 1);
      ghost var k := Start(numRestarts - 1, interval);
      while true
        invariant k <= |es| && Ready(k) && (es != [] ==> k < |es|)
        decreases |es| - k
      {
        var more := ParseNextKey(k);
        if k < |es| { OffsetOfEntry(data, restarts, numRestarts, es, interval, k + 1); }
        if !(more && NextEntryOffset() < restarts) {
          break;
        }
        AfterEntry(k);
        k := k + 1;
      }
    }

    /** Compares the key at a restart point, which is stored whole, with a target. */
    method RestartIsBefore(mid: nat, target: Bytes) returns (b: bool)
      requires Ok() && 0 < mid < numRestarts
      ensures Start(mid, interval) < |es| && b == less(es[Start(mid, interval)].key, target)
    {
      hide Layout, Off, Start, StandsAt, Shared, EntryHeader, SharedLength, DecodeFixed32;
      LayoutRestart(data, restarts, numRestarts, es, interval, mid);
      RestartNotEmpty(mid);
      var offset := GetRestartPoint(mid);
      ghost var m := Start(mid, interval);
      EntryAt(data, restarts, numRestarts, es, interval, m);
      RestartIsWhole(es, mid, interval);
      var d := DecodeEntry(data, offset, restarts);
      if d.None? || d.value.shared != 0 {
        // never in a block that a builder made; the source reports corruption
        assert false;
      }
      WholeKey(data, d.value.p, es[m].key);
      b := less(data[d.value.p..d.value.p + d.value.nonShared], target);
    }

    /** To the first entry at or after the target: a binary search among the restart points, then a
        linear one. */
    method Seek(target: Bytes) returns (ghost i: nat)
      requires Ok() && IsOrder(less) && Increasing(less, es)
      modifies this
      ensures At(i) && (i < |es| ==> !less(es[i].key, target))
      ensures forall k :: 0 <= k < i ==> less(es[k].key, target)
    {
      hide Layout, Off, Start, StandsAt, Shared, IsOrder, Increasing;
      var left: nat, right: nat := 0, numRestarts - 1;
      while left < right
        invariant left <= right < numRestarts
        invariant StartsBefore(es, interval, left, less, target)
      {
        var mid := (left + right + 1) / 2;
        var before := RestartIsBefore(mid, target);
        if before {
          left := mid;
        } else {
          right := mid - 1;
        }
      }
      SeekToRestartPoint(left);
      i := Start(left, interval);
      EarlierStarts(es, interval, left, less, target);
      while true
        invariant i <= |es| && Ready(i) && forall k :: 0 <= k < i ==> less(es[k].key, target)
        decreases |es| - i
      {
        var more := ParseNextKey(i);
        if !more {
          return;
        }
        if !less(key, target) {
          return;
        }
        AfterEntry(i);
        i := i + 1;
      }
    }

    lemma RestartNotEmpty(j: nat)
      requires Ok() && 0 < j < numRestarts
      ensures es != []
    {
      RestartsAreRight(es, interval);
    }
  }

  lemma FirstStart(interval: nat)
    ensures Start(0, interval) == 0
  {
  }

  lemma LayoutInterval(data: Bytes, restarts: nat, num: nat, es: seq<KeyValue>, interval: nat)
    requires Layout(data, restarts, num, es, interval)
    ensures 0 < interval
  {
  }

  lemma RestartIsWhole(es: seq<KeyValue>, j: nat, interval: nat)
    requires 0 < interval && Start(j, interval) < |es|
    ensures Shared(es, Start(j, interval), interval) == 0
  {
    Remainder(Start(j, interval), j, 0, interval);
  }

  lemma WholeKey(data: Bytes, p: nat, key: Bytes)
    requires StandsAt(data, p, key[0..])
    ensures p + |key| <= |data| && data[p..p + |key|] == key
  {
  }

  /** The restart point is the first one, or its key is before the target. */
  ghost predicate StartsBefore(es: seq<KeyValue>, interval: nat, j: nat, less: Order, target: Bytes) {
    j == 0 || (Start(j, interval) < |es| && less(es[Start(j, interval)].key, target))
  }

  lemma EarlierStarts(es: seq<KeyValue>, interval: nat, j: nat, less: Order, target: Bytes)
    requires StartsBefore(es, interval, j, less, target) && IsOrder(less) && Increasing(less, es)
    ensures forall k :: 0 <= k < Start(j, interval) && k < |es| ==> less(es[k].key, target)
  {
  }

  lemma OffsetOfEntry(data: Bytes, restarts: nat, num: nat, es: seq<KeyValue>, interval: nat, i: nat)
    requires Layout(data, restarts, num, es, interval) && i <= |es|
    ensures Off(es, i, interval) <= restarts && (Off(es, i, interval) == restarts <==> i == |es|)
  {
    assert es[..|es|] == es;
    OffIncreases(es, i, |es|, interval);
  }

  /** Offsets of restart points compare like the numbers of entries. */
  lemma RestartOrder(data: Bytes, restarts: nat, num: nat, es: seq<KeyValue>, interval: nat, j: nat, i: nat)
    requires Layout(data, restarts, num, es, interval) && j < num && i <= |es|
    ensures Start(j, interval) <= |es| && restarts + 4 * j + 4 <= |data|
    ensures DecodeFixed32(data[restarts + 4 * j..]) < Off(es, i, interval) <==> Start(j, interval) < i
  {
    hide Layout, Off;
    LayoutRestart(data, restarts, num, es, interval, j);
    if Start(j, interval) < i {
      OffIncreases(es, Start(j, interval), i, interval);
    } else {
      OffIncreases(es, i, Start(j, interval), interval);
    }
  }

  lemma PutTogether(data: Bytes, p: nat, full: Bytes, shared: nat, key: Bytes)
    requires shared <= |full| && shared <= |key| && key[..shared] == full[..shared] && StandsAt(data, p, full[shared..])
    ensures p + |full| - shared <= |data| && key[..shared] + data[p..p + |full| - shared] == full
  {
  }
}
