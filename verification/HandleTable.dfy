/** The hash table of the block cache (util/cache.cc): chains of entries, linked through the entries
    themselves. */
module HandleTable {
  import opened Coding

  class Handle {
    const key: Bytes
    const hash: nat
    const charge: nat
    var nextHash: Handle?
    var next: Handle?
    var prev: Handle?
    var inCache: bool
    var refs: nat

    constructor (key: Bytes, hash: nat, charge: nat, inCache: bool, refs: nat)
      ensures this.key == key && this.hash == hash && this.charge == charge
      ensures this.inCache == inCache && this.refs == refs && next == null && prev == null
    {
      this.key, this.hash, this.charge := key, hash, charge;
      nextHash, next, prev := null, null, null;
      this.inCache, this.refs := inCache, refs;
    }
  }

  predicate Matches(h: Handle, key: Bytes, hash: nat) {
    h.key == key && h.hash == hash
  }

  ghost predicate Absent(entries: set<Handle>, key: Bytes, hash: nat) {
    forall h :: h in entries ==> !Matches(h, key, hash)
  }

  /** No two entries for the same key. */
  ghost predicate DistinctKeys(entries: set<Handle>) {
    forall a, b :: a in entries && b in entries && Matches(a, b.key, b.hash) ==> a == b
  }

  ghost predicate NoRepeats(s: seq<Handle>) {
    forall j, k :: 0 <= j < k < |s| ==> s[j] != s[k]
  }

  /** The bucket for a hash; the number of buckets is a power of two, and this is `hash & (length - 1)`. */
  function BucketOf(hash: nat, length: nat): (b: nat)
    requires length > 0
    ensures b < length
  {
    hash % length
  }

  /** Every entry is in the bucket of its hash. */
  ghost predicate Filed(buckets: seq<seq<Handle>>, entries: set<Handle>) {
    && |buckets| > 0
    && (forall i, j :: 0 <= i < |buckets| && 0 <= j < |buckets[i]| ==> buckets[i][j] in entries && BucketOf(buckets[i][j].hash, |buckets|) == i)
    && (forall h :: h in entries ==> h in buckets[BucketOf(h.hash, |buckets|)])
    && (forall i :: 0 <= i < |buckets| ==> NoRepeats(buckets[i]))
  }

  function From(s: seq<Handle>, j: nat): Handle? {
    if j < |s| then s[j] else null
  }

  /** The `j`-th entry of the chain leads to the next. */
  ghost predicate Leads(s: seq<Handle>, j: int)
    requires 0 <= j < |s|
    reads s
  {
    s[j].nextHash == From(s, j + 1)
  }

  function Pushed(h: Handle, s: seq<Handle>): seq<Handle> {
    [h] + s
  }

  /** A chain by its first pointer and its entries. */
  datatype Chain = Chain(first: Handle?, entries: seq<Handle>)

  /** The buckets of a table. */
  datatype Buckets = Buckets(list: array<Handle?>, chains: seq<seq<Handle>>, entries: set<Handle>)

  ghost predicate Chained(first: Handle?, s: seq<Handle>)
    reads s
  {
    && first == From(s, 0)
    && forall j :: 0 <= j < |s| ==> Leads(s, j)
  }

  ghost predicate IsPowerOfTwo(n: nat) {
    n == 1 || (n > 1 && n % 2 == 0 && IsPowerOfTwo(n / 2))
  }

  ghost function Without(entries: set<Handle>, h: Handle?): set<Handle> {
    if h == null then entries else entries - {h}
  }

  lemma NotInChain(buckets: seq<seq<Handle>>, entries: set<Handle>, key: Bytes, hash: nat)
    requires Filed(buckets, entries)
    requires forall h :: h in buckets[BucketOf(hash, |buckets|)] ==> !Matches(h, key, hash)
    ensures Absent(entries, key, hash)
  {
  }

  lemma InChain(buckets: seq<seq<Handle>>, entries: set<Handle>, i: nat, j: nat)
    requires Filed(buckets, entries) && i < |buckets| && j < |buckets[i]|
    ensures buckets[i][j] in entries
  {
  }

  /** A chain with its `j`-th entry replaced by `h`, or `h` added at its end. */
  ghost function WithEntry(s: seq<Handle>, j: nat, h: Handle): seq<Handle>
    requires j <= |s|
  {
    s[..j] + [h] + if j < |s| then s[j + 1..] else []
  }

  lemma WithEntryAt(s: seq<Handle>, j: nat, h: Handle, k: nat)
    requires j <= |s| && k < |WithEntry(s, j, h)|
    ensures WithEntry(s, j, h)[k] == if k == j then h else s[k]
    ensures |WithEntry(s, j, h)| == if j < |s| then |s| else |s| + 1
  {
  }

  lemma WithEntryDistinct(s: seq<Handle>, j: nat, h: Handle)
    requires NoRepeats(s) && j <= |s| && h !in s
    ensures NoRepeats(WithEntry(s, j, h))
  {
    hide WithEntry;
    var r := WithEntry(s, j, h);
    forall k, l | 0 <= k < l < |r|
      ensures r[k] != r[l]
    {
      WithEntryAt(s, j, h, k);
      WithEntryAt(s, j, h, l);
    }
  }

  lemma FiledWith(buckets: seq<seq<Handle>>, entries: set<Handle>, b: nat, j: nat, h: Handle)
    requires Filed(buckets, entries) && h !in entries
    requires b == BucketOf(h.hash, |buckets|) && j <= |buckets[b]|
    ensures Filed(buckets[b := WithEntry(buckets[b], j, h)], Without(entries, From(buckets[b], j)) + {h})
  {
    hide BucketOf, WithEntry;
    var s, e := buckets[b], Without(entries, From(buckets[b], j)) + {h};
    var r: seq<seq<Handle>> := buckets[b := WithEntry(s, j, h)];
    forall i, k: nat | 0 <= i < |r| && k < |r[i]|
      ensures r[i][k] in e && BucketOf(r[i][k].hash, |r|) == i
    {
      if i == b {
        WithEntryAt(s, j, h, k);
      } else {
        assert r[i][k] == buckets[i][k];
      }
    }
    forall x | x in e
      ensures x in r[BucketOf(x.hash, |r|)]
    {
      var i := BucketOf(x.hash, |r|);
      var k: nat;
      if x == h {
        k := j;
        LongEnough(s, j, h);
      } else {
        k :| k < |buckets[i]| && buckets[i][k] == x;
        LongEnough(s, j, h);
      }
      if i == b {
        WithEntryAt(s, j, h, k);
      }
      assert r[i][k] == x;
    }
    WithEntryDistinct(s, j, h);
  }

  lemma LongEnough(s: seq<Handle>, j: nat, h: Handle)
    requires j <= |s|
    ensures |WithEntry(s, j, h)| > j && |WithEntry(s, j, h)| >= |s|
  {
  }

  lemma KeysWith(entries: set<Handle>, replaced: Handle?, h: Handle)
    requires DistinctKeys(entries)
    requires if replaced == null then Absent(entries, h.key, h.hash) else Matches(replaced, h.key, h.hash) && replaced in entries
    ensures DistinctKeys(Without(entries, replaced) + {h})
  {
  }

  lemma FiledWithout(buckets: seq<seq<Handle>>, entries: set<Handle>, b: nat, j: nat)
    requires Filed(buckets, entries) && b < |buckets| && j < |buckets[b]|
    ensures buckets[b][j] in entries
    ensures Filed(buckets[b := buckets[b][..j] + buckets[b][j + 1..]], entries - {buckets[b][j]})
  {
    hide BucketOf;
    var s, e := buckets[b], entries - {buckets[b][j]};
    var r: seq<seq<Handle>> := buckets[b := s[..j] + s[j + 1..]];
    forall i, k | 0 <= i < |r| && 0 <= k < |r[i]|
      ensures r[i][k] in e && BucketOf(r[i][k].hash, |r|) == i
    {
      if i == b {
        assert r[i][k] == s[if k < j then k else k + 1];
      } else {
        assert r[i][k] == buckets[i][k];
        assert BucketOf(s[j].hash, |buckets|) == b;
      }
    }
    forall x | x in e
      ensures x in r[BucketOf(x.hash, |r|)]
    {
      var i := BucketOf(x.hash, |r|);
      var k :| 0 <= k < |buckets[i]| && buckets[i][k] == x;
      if i == b {
        assert r[i][if k < j then k else k - 1] == x;
      } else {
        assert r[i][k] == x;
      }
    }
  }

  /** The other chains have other entries. */
  lemma Elsewhere(buckets: seq<seq<Handle>>, entries: set<Handle>, b: nat, i: nat, h: Handle)
    requires Filed(buckets, entries) && b < |buckets| && i < |buckets| && i != b
    requires h in buckets[b] || h !in entries
    ensures h !in buckets[i]
  {
    hide BucketOf;
  }

  twostate lemma ChainStays(c: Chain)
    requires old(Chained(c.first, c.entries)) && forall x :: x in c.entries ==> x.nextHash == old(x.nextHash)
    ensures Chained(c.first, c.entries)
  {
    forall j | 0 <= j < |c.entries|
      ensures Leads(c.entries, j)
    {
      assert old(Leads(c.entries, j));
    }
  }

  class HandleTable {
    var length: nat
    var elems: nat
    var list: array<Handle?>
    ghost var buckets: seq<seq<Handle>>
    ghost var entries: set<Handle>

    ghost predicate Linked()
      reads this, list, entries
    {
      && IsPowerOfTwo(length) && length >= 4 && list.Length == length == |buckets|
      && Filed(buckets, entries) && DistinctKeys(entries) && elems == |entries|
      && forall i :: 0 <= i < length ==> Chained(list[i], buckets[i])
    }

    /** There are as many buckets as entries, or more. */
    ghost predicate Valid()
      reads this, list, entries
    {
      Linked() && elems <= length
    }

    /** Only chains matter to the table. */
    twostate lemma Stays()
      requires old(Valid())
      requires unchanged(this)
      requires forall i :: 0 <= i < list.Length ==> list[i] == old(list[i])
      requires forall h :: h in entries ==> h.nextHash == old(h.nextHash)
      ensures Valid()
    {
      hide BucketOf, DistinctKeys, IsPowerOfTwo, Chained;
      forall i | 0 <= i < length
        ensures Chained(list[i], buckets[i])
      {
        forall x | x in buckets[i]
          ensures x.nextHash == old(x.nextHash)
        {
          InBucket(buckets, entries, i, x);
        }
        ChainStays(Chain(list[i], buckets[i]));
      }
    }

    constructor ()
      ensures Valid() && entries == {} && fresh(list)
    {
      length, elems := 4, 0;
      list := new Handle?[4](_ => null);
      buckets, entries := [[], [], [], []], {};
      new;
      assert IsPowerOfTwo(1) && IsPowerOfTwo(2);
    }

    /** The entry for a key, or the end of the chain it would be in, and the entry that points there. */
    method FindPointer(key: Bytes, hash: nat) returns (before: Handle?, at: Handle?, ghost j: nat)
      requires Valid()
      ensures var s := buckets[BucketOf(hash, length)]; j <= |s| && at == From(s, j) && before == if j > 0 then s[j - 1] else null
      ensures at != null ==> at in entries && Matches(at, key, hash)
      ensures at == null ==> Absent(entries, key, hash)
    {
      hide Filed, BucketOf, DistinctKeys, IsPowerOfTwo;
      var b := BucketOf(hash, length);
      ghost var s := buckets[b];
      assert Chained(list[b], s);
      before, at, j := null, list[b], 0;
      while at != null && (at.hash != hash || key != at.key)
        invariant j <= |s| && at == From(s, j) && before == if j > 0 then s[j - 1] else null
        invariant forall k :: 0 <= k < j ==> !Matches(s[k], key, hash)
        decreases |s| - j
      {
        assert Leads(s, j);
        before, at, j := at, at.nextHash, j + 1;
      }
      if at == null {
        NotInChain(buckets, entries, key, hash);
      } else {
        InChain(buckets, entries, b, j);
      }
    }

    method Lookup(key: Bytes, hash: nat) returns (h: Handle?)
      requires Valid()
      ensures h == null ==> Absent(entries, key, hash)
      ensures h != null ==> h in entries && Matches(h, key, hash)
    {
      hide Valid;
      var _, at, j := FindPointer(key, hash);
      h := at;
    }
  
    /** An entry put into the table takes the place of the entry for the same key. */
    method Insert(h: Handle) returns (replaced: Handle?)
      requires Valid() && h !in entries
      modifies this, list, (entries + {h})`nextHash
      ensures Valid() && (list == old(list) || fresh(list))
      ensures replaced == null ==> Absent(old(entries), h.key, h.hash)
      ensures replaced != null ==> replaced in old(entries) && Matches(replaced, h.key, h.hash)
      ensures entries == Without(old(entries), replaced) + {h}
    {
      hide Linked;
      replaced := Place(h);
      if replaced == null && elems > length {
        Resize();
      }
    }

    /** `Insert` up to the point where the table may have to grow. */
    method Place(h: Handle) returns (replaced: Handle?)
      requires Valid() && h !in entries
      modifies this`elems, this`buckets, this`entries, list, (entries + {h})`nextHash
      ensures Linked() && (replaced != null ==> elems <= length)
      ensures replaced == null ==> Absent(old(entries), h.key, h.hash)
      ensures replaced != null ==> replaced in old(entries) && Matches(replaced, h.key, h.hash)
      ensures entries == Without(old(entries), replaced) + {h}
    {
      hide Filed, BucketOf, DistinctKeys, IsPowerOfTwo, WithEntry, Chained, Absent, Without;
      var before, at, j := FindPointer(h.key, h.hash);
      var b := BucketOf(h.hash, length);
      ghost var s := buckets[b];
      replaced := at;
      ghost var newEntries, newBuckets := Without(entries, at) + {h}, buckets[b := WithEntry(s, j, h)];
      FiledWith(buckets, entries, b, j, h);
      KeysWith(entries, at, h);
      OneMore(entries, at, h);
      ChainFacts(buckets, entries, b, j, list[b]);
      h.nextHash := if at == null then null else at.nextHash;
      if before == null {
        list[b] := h;
      } else {
        before.nextHash := h;
      }
      ChainWith(Chain(old(list[b]), s), list[b], j, h);
      OtherChains(Buckets(list, buckets, entries), b, h, before);
      ChainsWith(list, buckets, b, WithEntry(s, j, h));
      entries, buckets := newEntries, newBuckets;
      if replaced == null {
        elems := elems + 1;
      }
    }

    method Remove(key: Bytes, hash: nat) returns (removed: Handle?)
      requires Valid()
      modifies this, list, entries`nextHash
      ensures Valid() && list == old(list)
      ensures removed == null ==> Absent(old(entries), key, hash)
      ensures removed != null ==> removed in old(entries) && Matches(removed, key, hash)
      ensures entries == Without(old(entries), removed)
    {
      hide Filed, BucketOf, DistinctKeys, IsPowerOfTwo, Chained, Absent;
      var before, at, j := FindPointer(key, hash);
      removed := at;
      if removed != null {
        var b := BucketOf(hash, length);
        ghost var s := buckets[b];
        FiledWithout(buckets, entries, b, j);
        ChainFacts(buckets, entries, b, j, list[b]);
        FewerKeys(entries, at);
        if before == null {
          list[b] := at.nextHash;
        } else {
          before.nextHash := at.nextHash;
        }
        ChainWithout(Chain(old(list[b]), s), list[b], j);
        OtherChains(Buckets(list, buckets, entries), b, null, before);
        ChainsWith(list, buckets, b, s[..j] + s[j + 1..]);
        entries, buckets := entries - {at}, buckets[b := s[..j] + s[j + 1..]];
        elems := elems - 1;
      }
    }

    /** The chains are dealt out again to a power of two of buckets, at least as many as entries. */
    method Resize()
      requires Linked()
      modifies this`length, this`list, this`buckets, entries`nextHash
      ensures Valid() && fresh(list)
    {
      hide Filed, BucketOf, DistinctKeys, IsPowerOfTwo, Chained, Pushed;
      var newLength := SizeFor(elems);
      var newList := new Handle?[newLength](_ => null);
      ghost var dealt: seq<seq<Handle>>, moved: set<Handle> := seq(newLength, _ => []), {};
      NothingDealt(dealt);
      NothingMoved(buckets, entries);
      forall k | 0 <= k < newLength
        ensures Chained(newList[k], dealt[k])
      {
        EmptyChain();
      }
      var count := 0;
      for i := 0 to length
        modifies newList, entries`nextHash
        invariant |dealt| == newLength && count == |moved|
        invariant Filed(dealt, moved) && Moved(buckets, entries, i, 0, moved)
        invariant forall k :: 0 <= k < newLength ==> Chained(newList[k], dealt[k])
        invariant forall x :: x in entries && x !in moved ==> x.nextHash == old(x.nextHash)
      {
        var h := list[i];
        ghost var j := 0;
        OldStart(Chain(old(list[i]), buckets[i]));
        while h != null
          modifies newList, entries`nextHash
          invariant j <= |buckets[i]| && h == From(buckets[i], j)
          invariant |dealt| == newLength && count == |moved|
          invariant Filed(dealt, moved) && Moved(buckets, entries, i, j, moved)
          invariant forall k :: 0 <= k < newLength ==> Chained(newList[k], dealt[k])
          invariant forall x :: x in entries && x !in moved ==> x.nextHash == old(x.nextHash)
          decreases |buckets[i]| - j
        {
          MovesNext(buckets, entries, i, j, moved);
          OldLink(Chain(old(list[i]), buckets[i]), j);
          var next := h.nextHash;
          ghost var b := BucketOf(h.hash, newLength);
          Deal(h, newList, dealt, moved);
          dealt, moved := dealt[b := Pushed(h, dealt[b])], moved + {h};
          h, count, j := next, count + 1, j + 1;
        }
        MovesRow(buckets, entries, i, moved);
      }
      AllMoved(buckets, entries, moved);
      assert elems == count;
      list, length, buckets := newList, newLength, dealt;
    }
  }

  lemma ChainFacts(buckets: seq<seq<Handle>>, entries: set<Handle>, b: nat, j: nat, first: Handle?)
    requires Filed(buckets, entries) && b < |buckets| && j <= |buckets[b]| && Chained(first, buckets[b])
    ensures NoRepeats(buckets[b]) && (forall x :: x in buckets[b] ==> x in entries)
    ensures j < |buckets[b]| ==> buckets[b][j].nextHash == From(buckets[b], j + 1)
  {
    if j < |buckets[b]| {
      assert Leads(buckets[b], j);
    }
  }

  /** What becomes of the chain when its `j`-th pointer is set to `h`. */
  twostate lemma ChainWith(c: Chain, new now: Handle?, new j: nat, new h: Handle)
    requires old(Chained(c.first, c.entries)) && j <= |c.entries|
    requires h.nextHash == From(c.entries, j + 1)
    requires forall k :: 0 <= k < |c.entries| && k != j - 1 ==> c.entries[k].nextHash == old(c.entries[k].nextHash)
    requires if j == 0 then now == h else now == c.first && c.entries[j - 1].nextHash == h
    ensures Chained(now, WithEntry(c.entries, j, h))
  {
    var s, r := c.entries, WithEntry(c.entries, j, h);
    forall k | 0 <= k < |r|
      ensures Leads(r, k)
    {
      if k != j && k != j - 1 {
        assert r[k] == s[k] && old(Leads(s, k)) && From(r, k + 1) == From(s, k + 1);
      }
    }
  }

  twostate lemma OtherChains(t: Buckets, new b: nat, new h: Handle?, new before: Handle?)
    requires Filed(t.chains, t.entries) && b < |t.chains| == t.list.Length
    requires (h != null ==> h !in t.entries) && (before != null ==> before in t.chains[b])
    requires forall i :: 0 <= i < |t.chains| ==> old(Chained(t.list[i], t.chains[i]))
    requires forall i :: 0 <= i < |t.chains| && i != b ==> t.list[i] == old(t.list[i])
    requires forall x :: x in t.entries && x != h && x != before ==> x.nextHash == old(x.nextHash)
    ensures forall i :: 0 <= i < |t.chains| && i != b ==> Chained(t.list[i], t.chains[i])
  {
    hide BucketOf;
    forall i | 0 <= i < |t.chains| && i != b
      ensures Chained(t.list[i], t.chains[i])
    {
      forall x | x in t.chains[i]
        ensures x.nextHash == old(x.nextHash)
      {
        InBucket(t.chains, t.entries, i, x);
        if before != null {
          Elsewhere(t.chains, t.entries, b, i, before);
        }
      }
      ChainStays(Chain(t.list[i], t.chains[i]));
    }
  }

  lemma ChainsWith(list: array<Handle?>, buckets: seq<seq<Handle>>, b: nat, after: seq<Handle>)
    requires b < |buckets| == list.Length && Chained(list[b], after)
    requires forall i :: 0 <= i < |buckets| && i != b ==> Chained(list[i], buckets[i])
    ensures forall i :: 0 <= i < |buckets| ==> Chained(list[i], buckets[b := after][i])
  {
    hide Chained;
  }

  lemma InBucket(buckets: seq<seq<Handle>>, entries: set<Handle>, i: nat, x: Handle)
    requires Filed(buckets, entries) && i < |buckets| && x in buckets[i]
    ensures x in entries
  {
  }

  lemma OneMore(entries: set<Handle>, replaced: Handle?, h: Handle)
    requires h !in entries && (replaced != null ==> replaced in entries)
    ensures |Without(entries, replaced) + {h}| == if replaced == null then |entries| + 1 else |entries|
  {
  }

  lemma FewerKeys(entries: set<Handle>, h: Handle)
    requires DistinctKeys(entries)
    ensures DistinctKeys(entries - {h})
  {
  }

  twostate lemma ChainWithout(c: Chain, new now: Handle?, new j: nat)
    requires old(Chained(c.first, c.entries)) && j < |c.entries|
    requires forall k :: 0 <= k < |c.entries| && k != j - 1 ==> c.entries[k].nextHash == old(c.entries[k].nextHash)
    requires if j == 0 then now == From(c.entries, j + 1) else now == c.first && c.entries[j - 1].nextHash == From(c.entries, j + 1)
    ensures Chained(now, c.entries[..j] + c.entries[j + 1..])
  {
    var s, r := c.entries, c.entries[..j] + c.entries[j + 1..];
    forall k | 0 <= k < |r|
      ensures Leads(r, k)
    {
      if k == j - 1 {
        assert r[k] == s[k];
      } else if k < j {
        assert r[k] == s[k] && old(Leads(s, k)) && From(r, k + 1) == From(s, k + 1);
      } else {
        assert r[k] == s[k + 1] && old(Leads(s, k + 1)) && From(r, k + 1) == From(s, k + 2);
      }
    }
  }

  // ---------- dealing the chains out again ----------

  method SizeFor(elems: nat) returns (n: nat)
    ensures IsPowerOfTwo(n) && n >= 4 && n >= elems
  {
    n := 4;
    assert IsPowerOfTwo(1) && IsPowerOfTwo(2);
    while n < elems
      invariant IsPowerOfTwo(n) && n >= 4
    {
      n := n * 2;
    }
  }

  /** The entries of the first `i` buckets and the first `j` of the next have been moved. */
  ghost predicate Moved(buckets: seq<seq<Handle>>, entries: set<Handle>, i: nat, j: nat, moved: set<Handle>) {
    && |buckets| > 0 && i <= |buckets| && (i < |buckets| ==> j <= |buckets[i]|)
    && moved <= entries
    && forall x :: x in entries ==>
         (x in moved <==> BucketOf(x.hash, |buckets|) < i || (BucketOf(x.hash, |buckets|) == i && i < |buckets| && x in buckets[i][..j]))
  }

  lemma NothingDealt(dealt: seq<seq<Handle>>)
    requires |dealt| > 0 && forall k :: 0 <= k < |dealt| ==> dealt[k] == []
    ensures Filed(dealt, {})
  {
  }

  lemma EmptyChain()
    ensures Chained(null, [])
  {
  }

  twostate lemma OldStart(c: Chain)
    requires old(Chained(c.first, c.entries))
    ensures c.first == From(c.entries, 0)
  {
  }

  twostate lemma OldLink(c: Chain, new j: nat)
    requires old(Chained(c.first, c.entries)) && j < |c.entries| && c.entries[j].nextHash == old(c.entries[j].nextHash)
    ensures c.entries[j].nextHash == From(c.entries, j + 1)
  {
    assert old(Leads(c.entries, j));
  }

  lemma NothingMoved(buckets: seq<seq<Handle>>, entries: set<Handle>)
    requires |buckets| > 0
    ensures Moved(buckets, entries, 0, 0, {})
  {
    hide BucketOf;
  }

  lemma MovesNext(buckets: seq<seq<Handle>>, entries: set<Handle>, i: nat, j: nat, moved: set<Handle>)
    requires Filed(buckets, entries) && Moved(buckets, entries, i, j, moved) && i < |buckets| && j < |buckets[i]|
    ensures buckets[i][j] in entries - moved
    ensures Moved(buckets, entries, i, j + 1, moved + {buckets[i][j]})
  {
    hide BucketOf;
    var s := buckets[i];
    assert s[..j + 1] == s[..j] + [s[j]];
  }

  lemma MovesRow(buckets: seq<seq<Handle>>, entries: set<Handle>, i: nat, moved: set<Handle>)
    requires Filed(buckets, entries) && i < |buckets| && Moved(buckets, entries, i, |buckets[i]|, moved)
    ensures Moved(buckets, entries, i + 1, 0, moved)
  {
    hide BucketOf;
    assert buckets[i][..|buckets[i]|] == buckets[i];
  }

  lemma AllMoved(buckets: seq<seq<Handle>>, entries: set<Handle>, moved: set<Handle>)
    requires Moved(buckets, entries, |buckets|, 0, moved)
    ensures moved == entries
  {
  }

  lemma FiledPushed(dealt: seq<seq<Handle>>, moved: set<Handle>, b: nat, h: Handle)
    requires Filed(dealt, moved) && h !in moved && b == BucketOf(h.hash, |dealt|)
    ensures Filed(dealt[b := Pushed(h, dealt[b])], moved + {h})
  {
    hide BucketOf;
    var r: seq<seq<Handle>> := dealt[b := Pushed(h, dealt[b])];
    forall x | x in moved + {h}
      ensures x in r[BucketOf(x.hash, |r|)]
    {
      if x == h {
        assert r[b][0] == h;
      } else {
        var i := BucketOf(x.hash, |r|);
        var k :| 0 <= k < |dealt[i]| && dealt[i][k] == x;
        assert r[i][if i == b then k + 1 else k] == x;
      }
    }
  }

  /** An entry is put in front of the chain of its new bucket. */
  method Deal(h: Handle, list: array<Handle?>, ghost dealt: seq<seq<Handle>>, ghost moved: set<Handle>)
    requires Filed(dealt, moved) && |dealt| == list.Length && h !in moved
    requires forall k :: 0 <= k < |dealt| ==> Chained(list[k], dealt[k])
    modifies h`nextHash, list
    ensures var b := BucketOf(h.hash, |dealt|);
            var after := dealt[b := Pushed(h, dealt[b])];
            && Filed(after, moved + {h})
            && forall k :: 0 <= k < |after| ==> Chained(list[k], after[k])
  {
    hide Filed, BucketOf, Chained, Pushed;
    NoneWithoutBuckets(dealt, moved);
    var b := BucketOf(h.hash, list.Length);
    h.nextHash := list[b];
    list[b] := h;
    Dealt(Buckets(list, dealt, moved), b, h);
    FiledPushed(dealt, moved, b, h);
  }

  lemma NoneWithoutBuckets(dealt: seq<seq<Handle>>, moved: set<Handle>)
    requires Filed(dealt, moved)
    ensures |dealt| > 0
  {
  }

  /** The chains after an entry was put in front of one. */
  twostate lemma Dealt(t: Buckets, new b: nat, new h: Handle)
    requires Filed(t.chains, t.entries) && b < |t.chains| == t.list.Length && h !in t.entries
    requires forall k :: 0 <= k < |t.chains| ==> old(Chained(t.list[k], t.chains[k]))
    requires forall k :: 0 <= k < |t.chains| && k != b ==> t.list[k] == old(t.list[k])
    requires t.list[b] == h && h.nextHash == old(t.list[b])
    requires forall x :: x in t.entries ==> x.nextHash == old(x.nextHash)
    ensures forall k :: 0 <= k < |t.chains| ==> Chained(t.list[k], t.chains[b := Pushed(h, t.chains[b])][k])
  {
    hide BucketOf;
    forall k | 0 <= k < |t.chains|
      ensures Chained(t.list[k], t.chains[b := Pushed(h, t.chains[b])][k])
    {
      forall x | x in t.chains[k]
        ensures x.nextHash == old(x.nextHash)
      {
        InBucket(t.chains, t.entries, k, x);
      }
      if k == b {
        ChainPushed(Chain(old(t.list[b]), t.chains[b]), h);
      } else {
        ChainStays(Chain(t.list[k], t.chains[k]));
      }
    }
  }

  twostate lemma ChainPushed(c: Chain, new h: Handle)
    requires old(Chained(c.first, c.entries)) && h.nextHash == c.first
    requires forall x :: x in c.entries ==> x.nextHash == old(x.nextHash)
    ensures Chained(h, Pushed(h, c.entries))
  {
    var s, r := c.entries, Pushed(h, c.entries);
    forall k | 0 <= k < |r|
      ensures Leads(r, k)
    {
      if k > 0 {
        assert r[k] == s[k - 1] && old(Leads(s, k - 1)) && From(r, k + 1) == From(s, k);
      }
    }
  }
}
