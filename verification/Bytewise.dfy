/** The bytewise user-key comparator and its two key-shortening functions (util/comparator.cc).

    The comparator is proved to be embedded in the real numbers, which is what lets the
    multi-version modules speak of a user key as a real-valued rank. */
module Bytewise {
  import opened Coding

  /** `Compare(a, b) < 0`: the first differing byte decides, a proper prefix is smaller. */
  predicate Less(a: Bytes, b: Bytes) {
    if b == [] then false
    else if a == [] then true
    else if a[0] != b[0] then a[0] < b[0]
    else Less(a[1..], b[1..])
  }

  // ---------- the order embeds in the reals ----------

  /** The key read as a fraction in base 257, its digits being the bytes plus one. */
  function Rank(a: Bytes): (r: real)
    ensures 0.0 <= r < 1.0
    ensures a == [] <==> r == 0.0
  {
    if a == [] then 0.0 else (a[0] as real + 1.0 + Rank(a[1..])) / 257.0
  }

  lemma {:induction false} RankIsOrderEmbedding(a: Bytes, b: Bytes)
    ensures Less(a, b) <==> Rank(a) < Rank(b)
    ensures a == b <==> Rank(a) == Rank(b)
  {
    if a != [] && b != [] {
      RankIsOrderEmbedding(a[1..], b[1..]);
      assert a == [a[0]] + a[1..] && b == [b[0]] + b[1..];
    }
  }

  lemma LessIsTotal(a: Bytes, b: Bytes)
    ensures Less(a, b) || a == b || Less(b, a)
    ensures !(Less(a, b) && Less(b, a)) && !Less(a, a)
  {
    RankIsOrderEmbedding(a, b);
    RankIsOrderEmbedding(b, a);
    RankIsOrderEmbedding(a, a);
  }

  /** Two keys that agree before position `d` are ordered by what follows. */
  lemma {:induction false} LessPastCommonPrefix(a: Bytes, b: Bytes, d: nat)
    requires d <= |a| && d <= |b| && a[..d] == b[..d]
    ensures Less(a, b) <==> Less(a[d..], b[d..])
  {
    if d == 0 {
      assert a[d..] == a && b[d..] == b;
    } else {
      assert a[0] == a[..d][0] == b[..d][0] == b[0];
      assert a[1..][..d - 1] == a[..d][1..] == b[..d][1..] == b[1..][..d - 1];
      LessPastCommonPrefix(a[1..], b[1..], d - 1);
      assert a[1..][d - 1..] == a[d..] && b[1..][d - 1..] == b[d..];
    }
  }

  /** `start` and `limit` agree before `d`, and a byte fits strictly between theirs at `d`. */
  ghost predicate HasRoomAt(start: Bytes, limit: Bytes, d: nat) {
    d < |start| && d < |limit| && start[..d] == limit[..d] && start[d] as int + 1 < limit[d]
  }

  /** `key` cut after position `d`, with the byte there raised by one. */
  function RaisedAt(key: Bytes, d: nat): Bytes
    requires d < |key| && key[d] < 255
  {
    key[..d] + [key[d] + 1]
  }

  /** The key is shortened exactly when there is room for a byte at the first difference; the
      result then lies strictly between the two keys, and otherwise it is `start` itself. */
  method FindShortestSeparator(start: Bytes, limit: Bytes) returns (sep: Bytes)
    ensures forall d: nat :: HasRoomAt(start, limit, d) ==> sep == RaisedAt(start, d)
    ensures sep != start ==> Less(start, sep) && Less(sep, limit) && exists d: nat :: HasRoomAt(start, limit, d)
    ensures |sep| <= |start|
  {
    var minLength := if |start| < |limit| then |start| else |limit|;
    var d := 0;
    while d < minLength && start[d] == limit[d]
      invariant d <= minLength
      invariant start[..d] == limit[..d]
    {
      d := d + 1;
    }
    sep := start;
    assert forall k :: 0 <= k < d ==> start[k] == start[..d][k] == limit[..d][k] == limit[k];
    if d < minLength && start[d] < 255 && start[d] + 1 < limit[d] {
      sep := RaisedAt(start, d);
      assert HasRoomAt(start, limit, d);
      assert sep[..d] == start[..d] == limit[..d];
      LessPastCommonPrefix(start, sep, d);
      LessPastCommonPrefix(sep, limit, d);
    }
  }

  ghost predicate AllMax(key: Bytes) {
    forall i :: 0 <= i < |key| ==> key[i] == 255
  }

  /** The first byte below 255 is raised and the rest cut off; a run of 255s is left alone. */
  method FindShortSuccessor(key: Bytes) returns (succ: Bytes)
    ensures AllMax(key) ==> succ == key
    ensures forall i :: 0 <= i < |key| && AllMax(key[..i]) && key[i] < 255 ==> succ == RaisedAt(key, i)
    ensures !AllMax(key) ==> Less(key, succ)
    ensures |succ| <= |key|
  {
    var i := 0;
    while i < |key|
      invariant i <= |key|
      invariant AllMax(key[..i])
    {
      if key[i] != 255 {
        succ := RaisedAt(key, i);
        assert succ[..i] == key[..i];
        LessPastCommonPrefix(key, succ, i);
        return;
      }
      i := i + 1;
    }
    assert key[..i] == key;
    succ := key;
  }
}
