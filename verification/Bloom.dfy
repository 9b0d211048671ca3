/** The Bloom filter policy (util/bloom.cc). */
module Bloom {
  import opened Coding

  const WORD := 0x1_0000_0000

  /** A 32-bit hash of a key. Nothing below depends on which function it is. */
  type Hash = Bytes -> nat

  // ---------- bits ----------

  /** `1 << k` in a byte. */
  function BitMask(k: nat): bv8
    requires k < 8
  {
    if k == 0 then 1 else if k == 1 then 2 else if k == 2 then 4 else if k == 3 then 8
    else if k == 4 then 16 else if k == 5 then 32 else if k == 6 then 64 else 128
  }

  predicate HasBit(b: bv8, k: nat)
    requires k < 8
  {
    b & BitMask(k) != 0
  }

  lemma SetBit(b: bv8, k: nat, j: nat)
    requires k < 8 && j < 8
    ensures HasBit(b | BitMask(k), j) <==> j == k || HasBit(b, j)
  {
  }

  lemma ByteRoundTrip(v: bv8)
    ensures (v as int) as bv8 == v
  {
  }

  function RaiseIn(b: Byte, k: nat): Byte
    requires k < 8
  {
    ((b as bv8) | BitMask(k)) as int
  }

  lemma RaiseInRaises(b: Byte, k: nat, j: nat)
    requires k < 8 && j < 8
    ensures HasBit(RaiseIn(b, k) as bv8, j) <==> j == k || HasBit(b as bv8, j)
  {
    hide HasBit, BitMask;
    ByteRoundTrip((b as bv8) | BitMask(k));
    SetBit(b as bv8, k, j);
  }

  predicate TestBit(a: Bytes, pos: nat)
    requires pos < 8 * |a|
  {
    HasBit(a[pos / 8] as bv8, pos % 8)
  }

  function RaiseBit(a: Bytes, pos: nat): (r: Bytes)
    requires pos < 8 * |a|
    ensures |r| == |a|
  {
    a[pos / 8 := RaiseIn(a[pos / 8], pos % 8)]
  }

  lemma RaiseBitRaises(a: Bytes, pos: nat, q: nat)
    requires pos < 8 * |a| && q < 8 * |a|
    ensures TestBit(RaiseBit(a, pos), q) <==> q == pos || TestBit(a, q)
  {
    hide HasBit, RaiseIn;
    if q / 8 == pos / 8 {
      RaiseInRaises(a[pos / 8], pos % 8, q % 8);
    }
  }

  // ---------- probing ----------

  /** The hash rotated right by 17 bits. */
  function Delta(h: nat): nat {
    h / 0x2_0000 + h % 0x2_0000 * 0x8000
  }

  function RaiseAll(a: Bytes, h: nat, delta: nat, k: nat): (r: Bytes)
    requires a != []
    ensures |r| == |a|
    decreases k
  {
    if k == 0 then a else RaiseAll(RaiseBit(a, h % (8 * |a|)), (h + delta) % WORD, delta, k - 1)
  }

  predicate TestAll(a: Bytes, h: nat, delta: nat, k: nat)
    requires a != []
    decreases k
  {
    k == 0 || (TestBit(a, h % (8 * |a|)) && TestAll(a, (h + delta) % WORD, delta, k - 1))
  }

  /** Every bit of `a` is also in `b`. */
  ghost predicate Within(a: Bytes, b: Bytes) {
    |a| == |b| && forall q :: 0 <= q < 8 * |a| && TestBit(a, q) ==> TestBit(b, q)
  }

  lemma {:induction false} RaiseAllKeeps(a: Bytes, h: nat, delta: nat, k: nat)
    requires a != []
    ensures Within(a, RaiseAll(a, h, delta, k))
    decreases k
  {
    if k > 0 {
      var pos := h % (8 * |a|);
      forall q | 0 <= q < 8 * |a| && TestBit(a, q)
        ensures TestBit(RaiseBit(a, pos), q)
      {
        RaiseBitRaises(a, pos, q);
      }
      RaiseAllKeeps(RaiseBit(a, pos), (h + delta) % WORD, delta, k - 1);
    }
  }

  lemma {:induction false} TestAllKeeps(a: Bytes, b: Bytes, h: nat, delta: nat, k: nat)
    requires a != [] && Within(a, b) && TestAll(a, h, delta, k)
    ensures TestAll(b, h, delta, k)
    decreases k
  {
    if k > 0 {
      TestAllKeeps(a, b, (h + delta) % WORD, delta, k - 1);
    }
  }

  lemma {:induction false} RaisedAllTests(a: Bytes, h: nat, delta: nat, k: nat)
    requires a != []
    ensures TestAll(RaiseAll(a, h, delta, k), h, delta, k)
    decreases k
  {
    if k > 0 {
      var b := RaiseBit(a, h % (8 * |a|));
      RaiseBitRaises(a, h % (8 * |a|), h % (8 * |a|));
      RaisedAllTests(b, (h + delta) % WORD, delta, k - 1);
      RaiseAllKeeps(b, (h + delta) % WORD, delta, k - 1);
    }
  }

  // ---------- the policy ----------

  function RaiseKeys(hash: Hash, a: Bytes, keys: seq<Bytes>, k: nat): (r: Bytes)
    requires a != []
    ensures |r| == |a|
  {
    if keys == [] then a
    else
      var last := |keys| - 1;
      RaiseAll(RaiseKeys(hash, a, keys[..last], k), hash(keys[last]), Delta(hash(keys[last])), k)
  }

  /** The number of bytes for the bits of a filter. */
  function FilterBytes(n: nat, bitsPerKey: nat): (r: nat)
    ensures r >= 8
  {
    var bits := n * bitsPerKey;
    ((if bits < 64 then 64 else bits) + 7) / 8
  }

  /** The filter for some keys: the bits, then the number of probes. */
  function FilterOf(hash: Hash, bitsPerKey: nat, k: Byte, keys: seq<Bytes>): Bytes {
    RaiseKeys(hash, seq(FilterBytes(|keys|, bitsPerKey), _ => 0), keys, k) + [k]
  }

  /** The inner loop of `CreateFilter`: the probes of one key. */
  method RaiseKey(a: Bytes, key: nat, k: nat) returns (r: Bytes)
    requires a != []
    ensures r == RaiseAll(a, key, Delta(key), k)
  {
    hide RaiseBit, Delta;
    r := a;
    var h: nat, delta, bits := key, Delta(key), 8 * |a|;
    for j := 0 to k
      invariant |r| == |a| && RaiseAll(r, h, delta, k - j) == RaiseAll(a, key, delta, k)
    {
      r := RaiseBit(r, h % bits);
      h := (h + delta) % WORD;
    }
  }

  method CreateFilter(hash: Hash, bitsPerKey: nat, k: Byte, keys: seq<Bytes>, dst: Bytes) returns (r: Bytes)
    ensures r == dst + FilterOf(hash, bitsPerKey, k, keys)
  {
    var bytes := FilterBytes(|keys|, bitsPerKey);
    ghost var zeros: Bytes := seq(bytes, _ => 0);
    var a: Bytes := seq(bytes, _ => 0);
    for i := 0 to |keys|
      invariant |a| == bytes && a == RaiseKeys(hash, zeros, keys[..i], k)
    {
      assert keys[..i + 1][..i] == keys[..i];
      a := RaiseKey(a, hash(keys[i]), k);
    }
    assert keys[..|keys|] == keys;
    r := dst + a + [k];
    assert dst + a + [k] == dst + (a + [k]);
  }

  function MayMatch(hash: Hash, key: Bytes, filter: Bytes): bool {
    |filter| >= 2 && (filter[|filter| - 1] > 30 || TestAll(filter[..|filter| - 1], hash(key), Delta(hash(key)), filter[|filter| - 1]))
  }

  method KeyMayMatch(hash: Hash, key: Bytes, filter: Bytes) returns (b: bool)
    ensures b == MayMatch(hash, key, filter)
  {
    hide TestBit, Delta;
    if |filter| < 2 {
      return false;
    }
    var a := filter[..|filter| - 1];
    var bits := (|filter| - 1) * 8;
    var k := filter[|filter| - 1];
    if k > 30 {
      // reserved for other encodings
      return true;
    }
    var h: nat, delta := hash(key), Delta(hash(key));
    for j := 0 to k
      invariant TestAll(a, h, delta, k - j) == MayMatch(hash, key, filter)
    {
      if !TestBit(a, h % bits) {
        return false;
      }
      h := (h + delta) % WORD;
    }
    b := true;
  }

  lemma {:induction false} KeysTest(hash: Hash, a: Bytes, keys: seq<Bytes>, k: nat, i: nat)
    requires a != [] && i < |keys|
    ensures TestAll(RaiseKeys(hash, a, keys, k), hash(keys[i]), Delta(hash(keys[i])), k)
    decreases |keys|
  {
    var last := |keys| - 1;
    var before := RaiseKeys(hash, a, keys[..last], k);
    var h := hash(keys[last]);
    if i < last {
      KeysTest(hash, a, keys[..last], k, i);
      RaiseAllKeeps(before, h, Delta(h), k);
      TestAllKeeps(before, RaiseKeys(hash, a, keys, k), hash(keys[i]), Delta(hash(keys[i])), k);
    } else {
      RaisedAllTests(before, h, Delta(h), k);
    }
  }

  /** A filter never misses a key it was made for. */
  lemma NoFalseNegative(hash: Hash, bitsPerKey: nat, k: Byte, keys: seq<Bytes>, key: Bytes)
    requires key in keys
    ensures MayMatch(hash, key, FilterOf(hash, bitsPerKey, k, keys))
  {
    var zeros: Bytes := seq(FilterBytes(|keys|, bitsPerKey), _ => 0);
    var i :| 0 <= i < |keys| && keys[i] == key;
    KeysTest(hash, zeros, keys, k, i);
    var f := FilterOf(hash, bitsPerKey, k, keys);
    assert f[..|f| - 1] == RaiseKeys(hash, zeros, keys, k);
  }
}
