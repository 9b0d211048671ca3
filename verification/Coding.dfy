/** Bytes and fixed-width integers (util/coding.cc, util/crc32c.h). */
module Coding {
  import opened History

  type Byte = x: int | 0 <= x < 256
  type Bytes = seq<Byte>

  // ---------- fixed-width integers, least significant byte first ----------

  function EncodeFixed32(v: nat): (r: Bytes)
    requires v < 0x1_0000_0000
    ensures |r| == 4
  {
    [v % 256, v / 256 % 256, v / 65536 % 256, v / 16777216]
  }

  function DecodeFixed32(s: Bytes): (v: nat)
    requires |s| >= 4
    ensures v < 0x1_0000_0000
  {
    (s[0] as int) + (s[1] as int) * 256 + (s[2] as int) * 65536 + (s[3] as int) * 16777216
  }

  lemma Fixed32RoundTrip(v: nat, tail: Bytes)
    requires v < 0x1_0000_0000
    ensures DecodeFixed32(EncodeFixed32(v) + tail) == v
  {
    var s := EncodeFixed32(v) + tail;
    assert s[0] == v % 256 && s[1] == v / 256 % 256 && s[2] == v / 65536 % 256 && s[3] == v / 16777216;
    assert v / 65536 == v / 256 / 256 && v / 16777216 == v / 256 / 256 / 256;
  }

  // ---------- masked checksums ----------

  const MASK_DELTA: bv32 := 0xa282ead8

  function Mask(crc: bv32): bv32 {
    ((crc >> 15) | (crc << 17)) + MASK_DELTA
  }

  function Unmask(masked: bv32): bv32 {
    var rot := masked - MASK_DELTA;
    (rot >> 17) | (rot << 15)
  }

  lemma Rotate(crc: bv32)
    ensures var rot := (crc >> 15) | (crc << 17); (rot >> 17) | (rot << 15) == crc
  {
  }

  lemma MaskRoundTrip(crc: bv32)
    ensures Unmask(Mask(crc)) == crc
  {
    Rotate(crc);
  }

  /** A masked checksum as it is stored. */
  function StoredCrc(crc: bv32): (r: Bytes)
    ensures |r| == 4
  {
    EncodeFixed32(Mask(crc) as nat)
  }

  function LoadedCrc(s: Bytes): bv32
    requires |s| >= 4
  {
    Unmask(DecodeFixed32(s) as bv32)
  }

  lemma CrcRoundTrip(crc: bv32, tail: Bytes)
    ensures LoadedCrc(StoredCrc(crc) + tail) == crc
  {
    hide Mask, Unmask, EncodeFixed32, DecodeFixed32;
    Fixed32RoundTrip(Mask(crc) as nat, tail);
    MaskRoundTrip(crc);
  }

  // ---------- fixed 64-bit integers ----------

  function EncodeFixed64(v: nat): (r: Bytes)
    requires v < 0x1_0000_0000_0000_0000
    ensures |r| == 8
  {
    EncodeFixed32(v % 0x1_0000_0000) + EncodeFixed32(v / 0x1_0000_0000)
  }

  function DecodeFixed64(s: Bytes): (v: nat)
    requires |s| >= 8
    ensures v < 0x1_0000_0000_0000_0000
  {
    DecodeFixed32(s) + DecodeFixed32(s[4..]) * 0x1_0000_0000
  }

  lemma Fixed64RoundTrip(v: nat, tail: Bytes)
    requires v < 0x1_0000_0000_0000_0000
    ensures DecodeFixed64(EncodeFixed64(v) + tail) == v
  {
    hide EncodeFixed32, DecodeFixed32;
    var lo, hi := v % 0x1_0000_0000, v / 0x1_0000_0000;
    var s := EncodeFixed64(v) + tail;
    assert s == EncodeFixed32(lo) + (EncodeFixed32(hi) + tail) && s[4..] == EncodeFixed32(hi) + tail;
    Fixed32RoundTrip(lo, EncodeFixed32(hi) + tail);
    Fixed32RoundTrip(hi, tail);
  }

  // ---------- varints ----------

  /** Seven bits a byte, the lowest first; all bytes but the last have the top bit set. */
  function Varint(v: nat): (r: Bytes)
    ensures |r| > 0
  {
    if v < 128 then [v] else [v % 128 + 128] + Varint(v / 128)
  }

  /** The value of the varint at `p` and the position after it, if it ends before `limit` and within
      `rounds` bytes. */
  function ReadVarint(s: Bytes, p: nat, limit: nat, rounds: nat): (r: Option<(nat, nat)>)
    requires limit <= |s|
    ensures r.Some? ==> p < r.value.1 <= limit
    decreases rounds
  {
    if rounds == 0 || p >= limit then None
    else if s[p] < 128 then Some((s[p], p + 1))
    else
      match ReadVarint(s, p + 1, limit, rounds - 1)
      case None => None
      case Some((v, q)) => Some((s[p] - 128 + 128 * v, q))
  }

  /** The bytes `b` stand at position `p`. */
  ghost predicate StandsAt(s: Bytes, p: nat, b: Bytes) {
    p + |b| <= |s| && s[p..p + |b|] == b
  }

  lemma StandsPart(s: Bytes, p: nat, a: Bytes, b: Bytes)
    requires StandsAt(s, p, a + b)
    ensures StandsAt(s, p, a) && StandsAt(s, p + |a|, b)
  {
    assert s[p..p + |a|] == s[p..p + |a + b|][..|a|] && (a + b)[..|a|] == a;
    assert s[p + |a|..p + |a| + |b|] == s[p..p + |a + b|][|a|..] && (a + b)[|a|..] == b;
  }

  lemma {:induction false} VarintRoundTrip(v: nat, s: Bytes, p: nat, limit: nat, rounds: nat)
    requires StandsAt(s, p, Varint(v)) && p + |Varint(v)| <= limit <= |s| && |Varint(v)| <= rounds
    ensures ReadVarint(s, p, limit, rounds) == Some((v, p + |Varint(v)|))
    decreases v
  {
    assert s[p] == s[p..p + |Varint(v)|][0];
    if v >= 128 {
      StandsPart(s, p, [v % 128 + 128], Varint(v / 128));
      VarintRoundTrip(v / 128, s, p + 1, limit, rounds - 1);
    }
  }

  function Pow128(n: nat): nat {
    if n == 0 then 1 else 128 * Pow128(n - 1)
  }

  /** A number below a power of 128 takes no more bytes than its exponent. */
  lemma {:induction false} VarintLength(v: nat, n: nat)
    requires 0 < n && v < Pow128(n)
    ensures |Varint(v)| <= n
    decreases n
  {
    if v >= 128 {
      assert Pow128(n) == 128 * Pow128(n - 1);
      VarintLength(v / 128, n - 1);
    }
  }

  lemma Varint32Length(v: nat)
    requires v < 0x1_0000_0000
    ensures |Varint(v)| <= 5
  {
    assert Pow128(2) == 16384 && Pow128(3) == 2097152;
    assert Pow128(4) == 268435456 && Pow128(5) == 34359738368;
    VarintLength(v, 5);
  }

  lemma Varint64Length(v: nat)
    requires v < 0x1_0000_0000_0000_0000
    ensures |Varint(v)| <= 10
  {
    assert Pow128(3) == 2097152 && Pow128(5) == 34359738368 by {
      assert Pow128(2) == 16384 && Pow128(4) == 268435456;
    }
    assert Pow128(7) == 562949953421312 && Pow128(9) == 9223372036854775808 && Pow128(10) == 1180591620717411303424 by {
      assert Pow128(6) == 4398046511104 && Pow128(8) == 72057594037927936;
    }
    VarintLength(v, 10);
  }

  /** `EncodeVarint64`. */
  method PutVarint64(dst: Bytes, v: nat) returns (r: Bytes)
    ensures r == dst + Varint(v)
  {
    r := dst;
    var rest := v;
    while rest >= 128
      invariant r + Varint(rest) == dst + Varint(v)
    {
      assert r + ([rest % 128 + 128] + Varint(rest / 128)) == (r + [rest % 128 + 128]) + Varint(rest / 128);
      r := r + [rest % 128 + 128];
      rest := rest / 128;
    }
    r := r + [rest];
  }

  /** A value read after lower digits have been read. */
  function OnTopOf(result: nat, factor: nat, r: Option<(nat, nat)>): Option<(nat, nat)> {
    if r.None? then None else Some((result + factor * r.value.0, r.value.1))
  }

  lemma NextDigit(result: nat, factor: nat, s: Bytes, q: nat, limit: nat, rounds: nat)
    requires limit <= |s| && q < limit && 0 < rounds && s[q] >= 128
    ensures OnTopOf(result, factor, ReadVarint(s, q, limit, rounds)) ==
            OnTopOf(result + factor * (s[q] - 128), 128 * factor, ReadVarint(s, q + 1, limit, rounds - 1))
  {
    var r := ReadVarint(s, q + 1, limit, rounds - 1);
    if r.Some? {
      var d, v: int := s[q] - 128, r.value.0;
      assert factor * (d + 128 * v) == factor * d + (128 * factor) * v;
    }
  }

  lemma LastDigit(result: nat, factor: nat, s: Bytes, q: nat, limit: nat, rounds: nat)
    requires limit <= |s|
    ensures rounds == 0 || q >= limit ==> OnTopOf(result, factor, ReadVarint(s, q, limit, rounds)) == None
    ensures 0 < rounds && q < limit && s[q] < 128 ==>
              OnTopOf(result, factor, ReadVarint(s, q, limit, rounds)) == Some((result + factor * s[q], q + 1))
  {
  }

  /** The loop of `GetVarint32PtrFallback` and `GetVarint64Ptr`. */
  method GetDigits(s: Bytes, p: nat, limit: nat, rounds: nat) returns (r: Option<(nat, nat)>)
    requires limit <= |s|
    ensures r == ReadVarint(s, p, limit, rounds)
  {
    hide ReadVarint, OnTopOf;
    var result: nat, factor: nat, q: nat := 0, 1, p;
    OnTopOfNothing(ReadVarint(s, p, limit, rounds));
    for round := 0 to rounds
      invariant ReadVarint(s, p, limit, rounds) == OnTopOf(result, factor, ReadVarint(s, q, limit, rounds - round))
    {
      LastDigit(result, factor, s, q, limit, rounds - round);
      if q >= limit {
        return None;
      }
      if s[q] < 128 {
        return Some((result + factor * s[q], q + 1));
      }
      NextDigit(result, factor, s, q, limit, rounds - round);
      result, factor, q := result + factor * (s[q] - 128), 128 * factor, q + 1;
    }
    LastDigit(result, factor, s, q, limit, 0);
    r := None;
  }

  lemma OnTopOfNothing(r: Option<(nat, nat)>)
    ensures OnTopOf(0, 1, r) == r
  {
  }

  /** `GetVarint32Ptr`: the value is kept to 32 bits. */
  method GetVarint32(s: Bytes, p: nat, limit: nat) returns (r: Option<(nat, nat)>)
    requires limit <= |s|
    ensures r == match ReadVarint(s, p, limit, 5)
                 case None => None
                 case Some((v, q)) => Some((v % 0x1_0000_0000, q))
  {
    r := GetDigits(s, p, limit, 5);
    if r.Some? {
      r := Some((r.value.0 % 0x1_0000_0000, r.value.1));
    }
  }

  /** `PutLengthPrefixedSlice`. */
  function LengthPrefixed(s: Bytes): Bytes {
    Varint(|s|) + s
  }
}
