/** Reading the integers and length-prefixed slices of a record in turn (util/coding.cc). */
module Slices {
  import opened History
  import opened Coding

  const TWO32 := 0x1_0000_0000
  const TWO64 := 0x1_0000_0000_0000_0000

  // ---------- what is read ----------

  function Get32(s: Bytes, p: nat): (r: Option<(nat, nat)>)
    ensures r.Some? ==> p < r.value.1 <= |s|
  {
    match ReadVarint(s, p, |s|, 5)
    case None => None
    case Some((v, q)) => Some((v % TWO32, q))
  }

  function Get64(s: Bytes, p: nat): (r: Option<(nat, nat)>)
    ensures r.Some? ==> p < r.value.1 <= |s|
  {
    match ReadVarint(s, p, |s|, 10)
    case None => None
    case Some((v, q)) => Some((v % TWO64, q))
  }

  function GetSlice(s: Bytes, p: nat): (r: Option<(Bytes, nat)>)
    ensures r.Some? ==> p < r.value.1 <= |s|
  {
    match Get32(s, p)
    case None => None
    case Some((size, q)) => if size <= |s| - q then Some((s[q..q + size], q + size)) else None
  }

  // ---------- what was written is read ----------

  lemma Written32(s: Bytes, p: nat, v: nat)
    requires StandsAt(s, p, Varint(v)) && v < TWO32
    ensures Get32(s, p) == Some((v, p + |Varint(v)|))
  {
    Varint32Length(v);
    VarintRoundTrip(v, s, p, |s|, 5);
  }

  lemma Written64(s: Bytes, p: nat, v: nat)
    requires StandsAt(s, p, Varint(v)) && v < TWO64
    ensures Get64(s, p) == Some((v, p + |Varint(v)|))
  {
    Varint64Length(v);
    VarintRoundTrip(v, s, p, |s|, 10);
  }

  lemma WrittenSlice(s: Bytes, p: nat, b: Bytes)
    requires StandsAt(s, p, LengthPrefixed(b)) && |b| < TWO32
    ensures GetSlice(s, p) == Some((b, p + |LengthPrefixed(b)|))
  {
    hide Varint, Get32;
    StandsPart(s, p, Varint(|b|), b);
    Written32(s, p, |b|);
  }

  // ---------- step by step ----------

  /** `PutLengthPrefixedSlice`. */
  method PutSlice(dst: Bytes, b: Bytes) returns (r: Bytes)
    ensures r == dst + LengthPrefixed(b)
  {
    r := PutVarint64(dst, |b|);
    r := r + b;
    assert dst + Varint(|b|) + b == dst + LengthPrefixed(b);
  }

  method Read32(s: Bytes, p: nat) returns (r: Option<(nat, nat)>)
    requires p <= |s|
    ensures r == Get32(s, p)
  {
    r := GetVarint32(s, p, |s|);
  }

  method Read64(s: Bytes, p: nat) returns (r: Option<(nat, nat)>)
    requires p <= |s|
    ensures r == Get64(s, p)
  {
    var v := GetDigits(s, p, |s|, 10);
    r := if v.None? then None else Some((v.value.0 % TWO64, v.value.1));
  }

  method ReadSlice(s: Bytes, p: nat) returns (r: Option<(Bytes, nat)>)
    requires p <= |s|
    ensures r == GetSlice(s, p)
  {
    hide ReadVarint;
    var size := Read32(s, p);
    if size.None? || size.value.0 > |s| - size.value.1 {
      return None;
    }
    var q := size.value.1;
    r := Some((s[q..q + size.value.0], q + size.value.0));
  }
}
