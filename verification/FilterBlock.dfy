/** The filters of a table, one for every 2 KiB of block offsets (table/filter_block.cc). */
module FilterBlock {
  import opened History
  import opened Coding
  import Block
  import Bloom

  const FILTER_BASE := 2048
  const FILTER_BASE_LG: Byte := 11

  /** A filter policy: makes a filter for some keys, and tests a key against a filter. */
  datatype Policy = Policy(create: seq<Bytes> -> Bytes, mayMatch: (Bytes, Bytes) -> bool)

  ghost predicate IsSound(policy: Policy) {
    forall keys, key :: key in keys ==> policy.mayMatch(key, policy.create(keys))
  }

  function BloomPolicy(hash: Bloom.Hash, bitsPerKey: nat, k: Byte): Policy {
    Policy(keys => Bloom.FilterOf(hash, bitsPerKey, k, keys), (key, filter) => Bloom.MayMatch(hash, key, filter))
  }

  lemma BloomIsSound(hash: Bloom.Hash, bitsPerKey: nat, k: Byte)
    ensures IsSound(BloomPolicy(hash, bitsPerKey, k))
  {
    var policy := BloomPolicy(hash, bitsPerKey, k);
    forall keys, key | key in keys
      ensures policy.mayMatch(key, policy.create(keys))
    {
      Bloom.NoFalseNegative(hash, bitsPerKey, k, keys, key);
    }
  }

  // ---------- the format ----------

  function FilterFor(policy: Policy, keys: seq<Bytes>): Bytes {
    if keys == [] then [] else policy.create(keys)
  }

  /** The filters one after another. */
  function Joined(policy: Policy, filters: seq<seq<Bytes>>): Bytes {
    if filters == [] then [] else Joined(policy, filters[..|filters| - 1]) + FilterFor(policy, filters[|filters| - 1])
  }

  /** Where each filter starts. */
  function Offsets(policy: Policy, filters: seq<seq<Bytes>>): (r: seq<nat>)
    ensures |r| == |filters|
  {
    if filters == [] then []
    else Offsets(policy, filters[..|filters| - 1]) + [|Joined(policy, filters[..|filters| - 1])|]
  }

  ghost predicate Fits(policy: Policy, filters: seq<seq<Bytes>>) {
    |Joined(policy, filters)| + 4 * |filters| + 5 < 0x1_0000_0000
  }

  lemma {:induction false} OffsetsAre(policy: Policy, filters: seq<seq<Bytes>>, i: nat)
    requires i < |filters|
    ensures Offsets(policy, filters)[i] == |Joined(policy, filters[..i])|
    decreases |filters|
  {
    var n := |filters| - 1;
    if i < n {
      OffsetsAre(policy, filters[..n], i);
      assert filters[..n][..i] == filters[..i];
    }
  }

  lemma {:induction false} JoinedPrefix(policy: Policy, filters: seq<seq<Bytes>>, i: nat)
    requires i <= |filters|
    ensures Joined(policy, filters[..i]) <= Joined(policy, filters)
    decreases |filters| - i
  {
    if i < |filters| {
      JoinedPrefix(policy, filters, i + 1);
      assert filters[..i + 1][..i] == filters[..i];
    } else {
      assert filters[..i] == filters;
    }
  }

  lemma OffsetsFit(policy: Policy, filters: seq<seq<Bytes>>)
    requires Fits(policy, filters)
    ensures Block.Fits32(Offsets(policy, filters))
  {
    forall i | 0 <= i < |filters|
      ensures Offsets(policy, filters)[i] < 0x1_0000_0000
    {
      OffsetsAre(policy, filters, i);
      JoinedPrefix(policy, filters, i);
    }
  }

  /** The bytes of a filter block. */
  function FilterBlockOf(policy: Policy, filters: seq<seq<Bytes>>): Bytes
    requires Fits(policy, filters)
  {
    OffsetsFit(policy, filters);
    Joined(policy, filters) + Block.Fixed32s(Offsets(policy, filters)) + EncodeFixed32(|Joined(policy, filters)|) + [FILTER_BASE_LG]
  }

  // ---------- building ----------

  function KeysAt(filters: seq<seq<Bytes>>, keys: seq<Bytes>, index: nat): seq<Bytes> {
    if index < |filters| then filters[index] else if index == |filters| then keys else []
  }

  class FilterBlockBuilder {
    const policy: Policy
    var keys: seq<Bytes>
    var result: Bytes
    var filterOffsets: seq<nat>
    ghost var filters: seq<seq<Bytes>>  // the keys of each filter generated so far

    ghost predicate Valid()
      reads this
    {
      result == Joined(policy, filters) && filterOffsets == Offsets(policy, filters)
    }

    /** The keys that are or will be in a filter. */
    ghost function KeysOf(index: nat): seq<Bytes>
      reads this
    {
      KeysAt(filters, keys, index)
    }

    constructor (policy: Policy)
      ensures Valid() && this.policy == policy && filters == [] && keys == []
    {
      this.policy, keys, result, filterOffsets, filters := policy, [], [], [], [];
    }

    method GenerateFilter()
      requires Valid()
      modifies this
      ensures Valid() && filters == old(filters) + [old(keys)] && keys == []
    {
      assert (filters + [keys])[..|filters|] == filters;
      filterOffsets := filterOffsets + [|result|];
      filters := filters + [keys];
      if keys != [] {
        result := result + policy.create(keys);
        keys := [];
      } else {
        assert result + [] == result;
      }
    }

    /** Tells that the next keys are those of the block at an offset. */
    method StartBlock(blockOffset: nat)
      requires Valid() && |filters| <= blockOffset / FILTER_BASE
      modifies this
      ensures Valid() && |filters| == blockOffset / FILTER_BASE
      ensures forall i: nat :: KeysOf(i) == old(KeysOf(i))
    {
      var filterIndex := blockOffset / FILTER_BASE;
      while filterIndex > |filterOffsets|
        invariant Valid() && |filters| <= filterIndex && forall i: nat :: KeysOf(i) == old(KeysOf(i))
      {
        GenerateFilter();
      }
    }

    method AddKey(key: Bytes)
      requires Valid()
      modifies this`keys
      ensures Valid() && keys == old(keys) + [key]
    {
      keys := keys + [key];
    }

    /** Offsets are kept to 32 bits; they are right when the whole fits. */
    method Finish() returns (r: Bytes)
      requires Valid()
      modifies this
      ensures Valid() && (Fits(policy, filters) ==> r == FilterBlockOf(policy, filters))
      ensures Fits(policy, filters) <==> |r| < 0x1_0000_0000
      ensures forall i: nat :: (if i < |filters| then filters[i] else []) == old(KeysOf(i))
    {
      hide Joined, Offsets, Fits, FilterBlockOf, EncodeFixed32, Block.Fixed32s, Cut32;
      if keys != [] {
        GenerateFilter();
      }
      FinishedBlock(policy, filters);
      r := Block.PutFixed32s(result, Cut32(filterOffsets));
      r := r + EncodeFixed32(|result| % 0x1_0000_0000) + [FILTER_BASE_LG];
    }
  }

  lemma FinishedBlock(policy: Policy, filters: seq<seq<Bytes>>)
    ensures var size := |Joined(policy, filters)|;
            var r := Joined(policy, filters) + Block.Fixed32s(Cut32(Offsets(policy, filters))) + EncodeFixed32(size % 0x1_0000_0000) + [FILTER_BASE_LG];
            (Fits(policy, filters) ==> r == FilterBlockOf(policy, filters)) && (Fits(policy, filters) <==> |r| < 0x1_0000_0000)
  {
    hide Joined, Offsets, EncodeFixed32, Block.Fixed32s, Cut32;
    Block.Fixed32sLength(Cut32(Offsets(policy, filters)));
    if Fits(policy, filters) { FitsUncut(policy, filters); }
  }

  function Cut32(xs: seq<nat>): (r: seq<nat>)
    ensures Block.Fits32(r) && |r| == |xs|
  {
    seq(|xs|, i requires 0 <= i < |xs| => xs[i] % 0x1_0000_0000)
  }

  lemma FitsUncut(policy: Policy, filters: seq<seq<Bytes>>)
    requires Fits(policy, filters)
    ensures Block.Fits32(Offsets(policy, filters)) && Cut32(Offsets(policy, filters)) == Offsets(policy, filters)
    ensures |Joined(policy, filters)| % 0x1_0000_0000 == |Joined(policy, filters)|
  {
    hide Offsets, Joined;
    OffsetsFit(policy, filters);
    Uncut(Offsets(policy, filters));
  }

  lemma Uncut(xs: seq<nat>)
    requires Block.Fits32(xs)
    ensures Cut32(xs) == xs
  {
  }

  // ---------- reading ----------

  class FilterBlockReader {
    const policy: Policy
    const contents: Bytes
    const arrayOffset: nat
    const num: nat
    const baseLg: Byte

    /** The offsets are inside the contents. */
    ghost predicate Valid() {
      num > 0 ==> arrayOffset + 4 * num + 5 <= |contents|
    }

    /** A block that is too short, or whose offset array is outside it, has no filters. */
    constructor (policy: Policy, contents: Bytes)
      ensures Valid() && this.policy == policy && this.contents == contents
      ensures |contents| >= 5 ==>
                var lastWord := DecodeFixed32(contents[|contents| - 5..]);
                && baseLg == contents[|contents| - 1]
                && (lastWord <= |contents| - 5 ==> arrayOffset == lastWord && num == (|contents| - 5 - lastWord) / 4)
    {
      this.policy, this.contents := policy, contents;
      arrayOffset, num, baseLg := 0, 0, 0;
      var n := |contents|;
      if n >= 5 {
        baseLg := contents[n - 1];
        var lastWord := DecodeFixed32(contents[n - 5..]);
        if lastWord <= n - 5 {
          arrayOffset, num := lastWord, (n - 5 - lastWord) / 4;
        }
      }
    }

    /** Errors count as potential matches. */
    predicate KeyMayMatch(blockOffset: nat, key: Bytes)
      requires Valid()
    {
      MayMatchAt(ShiftRight(blockOffset, baseLg), key)
    }

    predicate MayMatchAt(index: nat, key: Bytes)
      requires Valid()
    {
      if index < num then
        var start := DecodeFixed32(contents[arrayOffset + index * 4..]);
        var limit := DecodeFixed32(contents[arrayOffset + index * 4 + 4..]);
        if start <= limit && limit <= arrayOffset then policy.mayMatch(key, contents[start..limit])
        else start != limit
      else true
    }
  }

  /** `n >> k`. */
  function ShiftRight(n: nat, k: nat): nat
    decreases k
  {
    if k == 0 then n else ShiftRight(n / 2, k - 1)
  }

  // ---------- no key is missed ----------

  lemma BlockParts(policy: Policy, filters: seq<seq<Bytes>>)
    requires Fits(policy, filters)
    ensures var c, d := FilterBlockOf(policy, filters), |Joined(policy, filters)|;
            && |c| == d + 4 * |filters| + 5 && c[|c| - 1] == FILTER_BASE_LG && c[..d] == Joined(policy, filters)
            && DecodeFixed32(c[|c| - 5..]) == d
            && forall i {:trigger Offsets(policy, filters)[i]} :: 0 <= i < |filters| ==> DecodeFixed32(c[d + i * 4..]) == Offsets(policy, filters)[i]
  {
    hide Joined, Offsets, EncodeFixed32, DecodeFixed32;
    OffsetsFit(policy, filters);
    var d, os := Joined(policy, filters), Offsets(policy, filters);
    var count := EncodeFixed32(|d|) + [FILTER_BASE_LG];
    var c := FilterBlockOf(policy, filters);
    Block.Fixed32sLength(os);
    assert c == d + Block.Fixed32s(os) + count;
    StandsNear(d + Block.Fixed32s(os), EncodeFixed32(|d|), [FILTER_BASE_LG]);
    Block.DecodesAt(c, |c| - 5, |d|);
    forall i | 0 <= i < |filters|
      ensures DecodeFixed32(c[|d| + i * 4..]) == os[i]
    {
      Block.Fixed32sAt(os, i);
      Block.StandsInside(c, d, Block.Fixed32s(os), count, 4 * i, EncodeFixed32(os[i]));
      Block.DecodesAt(c, |d| + 4 * i, os[i]);
    }
  }

  lemma StandsNear(a: Bytes, b: Bytes, c: Bytes)
    ensures StandsAt(a + (b + c), |a|, b) && a + (b + c) == a + b + c
  {
  }

  /** The bytes from one offset to the next are the filter. */
  lemma FilterBetween(policy: Policy, filters: seq<seq<Bytes>>, i: nat)
    requires i < |filters|
    ensures var d := Joined(policy, filters);
            var start := |Joined(policy, filters[..i])|;
            var limit := |Joined(policy, filters[..i + 1])|;
            start <= limit <= |d| && d[start..limit] == FilterFor(policy, filters[i])
  {
    JoinedPrefix(policy, filters, i + 1);
    assert filters[..i + 1][..i] == filters[..i];
    var d := Joined(policy, filters);
    var part := Joined(policy, filters[..i + 1]);
    assert d[..|part|] == part;
    assert d[|Joined(policy, filters[..i])|..|part|] == part[|Joined(policy, filters[..i])|..];
  }

  /** The reader of a finished block. */
  method OpenFilters(policy: Policy, ghost filters: seq<seq<Bytes>>, contents: Bytes) returns (r: FilterBlockReader)
    requires Fits(policy, filters) && contents == FilterBlockOf(policy, filters)
    ensures r.Valid() && Reads(r, policy, filters)
  {
    BlockParts(policy, filters);
    hide DecodeFixed32, FilterBlockOf, Joined, Offsets;
    r := new FilterBlockReader(policy, contents);
  }

  ghost predicate Reads(r: FilterBlockReader, policy: Policy, filters: seq<seq<Bytes>>) {
    && Fits(policy, filters) && r.policy == policy && r.contents == FilterBlockOf(policy, filters)
    && r.arrayOffset == |Joined(policy, filters)| && r.num == |filters| && r.baseLg == FILTER_BASE_LG
  }

  /** A key that was added for the block at an offset is never ruled out there. */
  lemma NoKeyMissed(r: FilterBlockReader, policy: Policy, filters: seq<seq<Bytes>>, blockOffset: nat, key: Bytes)
    requires r.Valid() && Reads(r, policy, filters) && IsSound(policy)
    requires blockOffset / FILTER_BASE < |filters| ==> key in filters[blockOffset / FILTER_BASE]
    ensures r.KeyMayMatch(blockOffset, key)
  {
    hide Joined, Offsets, DecodeFixed32, FilterBlockOf, Fits, ShiftRight;
    ShiftIsDivision(blockOffset);
    var i := blockOffset / FILTER_BASE;
    if i < |filters| {
      BlockParts(policy, filters);
      FilterBetween(policy, filters, i);
      OffsetsAre(policy, filters, i);
      NextOffset(policy, filters, i);
      var start, limit := |Joined(policy, filters[..i])|, |Joined(policy, filters[..i + 1])|;
      SlicePart(r.contents, |Joined(policy, filters)|, start, limit);
    }
  }

  lemma SlicePart(s: Bytes, n: nat, start: nat, limit: nat)
    requires start <= limit <= n <= |s|
    ensures s[start..limit] == s[..n][start..limit]
  {
  }

  lemma {:induction false} ShiftIsDivision(n: nat)
    ensures ShiftRight(n, FILTER_BASE_LG) == n / FILTER_BASE
  {
    assert ShiftRight(n, 11) == ShiftRight(n / 16, 7) by {
      assert ShiftRight(n, 11) == ShiftRight(n / 2 / 2, 9) && ShiftRight(n / 4, 9) == ShiftRight(n / 4 / 2 / 2, 7);
    }
    var m := n / 16;
    assert ShiftRight(m, 7) == ShiftRight(m / 16, 3) by {
      assert ShiftRight(m, 7) == ShiftRight(m / 2 / 2, 5) && ShiftRight(m / 4, 5) == ShiftRight(m / 4 / 2 / 2, 3);
    }
    var q := m / 16;
    assert ShiftRight(q, 3) == ShiftRight(q / 2 / 2, 1) == q / 2 / 2 / 2;
    assert n / 2048 == q / 8;
  }

  /** The word after an offset is where the filter ends. */
  lemma NextOffset(policy: Policy, filters: seq<seq<Bytes>>, i: nat)
    requires Fits(policy, filters) && i < |filters|
    ensures var c, d := FilterBlockOf(policy, filters), |Joined(policy, filters)|;
            d + i * 4 + 8 <= |c| && DecodeFixed32(c[d + i * 4 + 4..]) == |Joined(policy, filters[..i + 1])|
  {
    hide Joined, Offsets, DecodeFixed32, FilterBlockOf, Fits;
    BlockParts(policy, filters);
    if i + 1 < |filters| {
      OffsetsAre(policy, filters, i + 1);
      assert Offsets(policy, filters)[i + 1] == |Joined(policy, filters[..i + 1])|;
    } else {
      assert filters[..i + 1] == filters;
    }
  }
}
