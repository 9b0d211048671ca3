/** Decoding what was encoded gives the same message. */
module PbRoundTrip {
  import opened History
  import opened Coding
  import opened Protobuf
  import opened PbEncode
  import opened PbMemory
  import opened PbDecode
  import opened PbShapes
  import opened PbTwins
  import opened PbBounds

  // ---------- integers ----------

  lemma Distribute(a: int, b: int, f: int)
    ensures (a + b) * f == a * f + b * f
  {
  }

  /** Splitting off the lowest seven bits. */
  lemma LowDigit(q: nat, r: nat, f: nat, result: nat)
    requires result < f && r < 128
    ensures (128 * q + r) * f + result == q * (128 * f) + (r * f + result)
    ensures r * f + result < 128 * f
  {
    Distribute(128 * q, r, f);
    assert (128 * q) * f == q * (128 * f);
    Distribute(127 - r, r, f);
    assert (127 - r) * f >= 0;
  }

  lemma Rest32Unfolds(s: Bytes, p: nat, limit: nat, bitpos: nat, result: nat, digit: nat)
    requires p < limit <= |s| && bitpos <= 28 && digit < 128 && s[p] % 128 == digit
    ensures s[p] >= 128 ==> Varint32Rest(s, p, limit, bitpos, result) == Varint32Rest(s, p + 1, limit, bitpos + 7, Joined32(result, digit, bitpos))
    ensures s[p] == digit && (bitpos == 28 ==> digit / 16 % 8 == 0) ==>
              Varint32Rest(s, p, limit, bitpos, result) == Some((Joined32(result, digit, bitpos), p + 1))
  {
    hide Joined32;
  }

  /** Higher bits can be added as well as joined. */
  lemma {:induction false} JoinedBits(a: nat, digit: nat, k: nat)
    requires a < Pow2(k)
    ensures BitOr(a, digit * Pow2(k)) == a + digit * Pow2(k)
    decreases k
  {
    if k > 0 {
      JoinedBits(a / 2, digit, k - 1);
      Doubled(digit, Pow2(k - 1));
    }
  }

  lemma Doubled(digit: nat, f: nat)
    ensures digit * (2 * f) == 2 * (digit * f) && digit * (2 * f) / 2 == digit * f && digit * (2 * f) % 2 == 0
  {
  }

  lemma JoinedFits(result: nat, digit: nat, bitpos: nat)
    requires result < Pow2(bitpos) && digit * Pow2(bitpos) + result < TWO32
    ensures Joined32(result, digit, bitpos) == digit * Pow2(bitpos) + result
  {
    hide Pow2, BitOr;
    JoinedBits(result, digit, bitpos);
    SmallMod(digit * Pow2(bitpos) + result);
  }

  lemma SmallMod(n: nat)
    requires n < TWO32
    ensures n % TWO32 == n
  {
  }

  lemma FirstByte(s: Bytes, p: nat, v: nat)
    requires StandsAt(s, p, Varint(v))
    ensures p < |s| && s[p] == if v < 128 then v else v % 128 + 128
    ensures s[p] % 128 == v % 128
    ensures v < 128 ==> |Varint(v)| == 1 && v % 128 == v
    ensures v >= 128 ==> StandsAt(s, p + 1, Varint(v / 128)) && |Varint(v)| == 1 + |Varint(v / 128)|
  {
    assert s[p] == s[p..p + |Varint(v)|][0];
    if v >= 128 {
      StandsPart(s, p, [v % 128 + 128], Varint(v / 128));
    }
  }

  lemma DivMod(v: nat)
    ensures v == 128 * (v / 128) + v % 128
  {
  }

  lemma {:induction false} Rest32Written(s: Bytes, p: nat, limit: nat, bitpos: nat, result: nat, v: nat)
    requires StandsAt(s, p, Varint(v)) && p + |Varint(v)| <= limit <= |s|
    requires bitpos == 7 || bitpos == 14 || bitpos == 21 || bitpos == 28
    requires result < Pow2(bitpos) && v * Pow2(bitpos) + result < TWO32
    ensures Varint32Rest(s, p, limit, bitpos, result) == Some((v * Pow2(bitpos) + result, p + |Varint(v)|))
    decreases v
  {
    hide Pow2, Varint32Rest, Joined32, Varint, StandsAt;
    var f := Pow2(bitpos);
    FirstByte(s, p, v);
    DivMod(v);
    if v >= 128 {
      var q, r := v / 128, v % 128;
      LowDigit(q, r, f, result);
      NextPower(bitpos);
      BelowTop(v, r, f, result, bitpos);
      JoinedFits(result, r, bitpos);
      Rest32Unfolds(s, p, limit, bitpos, result, r);
      Rest32Written(s, p + 1, limit, bitpos + 7, r * f + result, q);
    } else {
      LastDigit32(v, f, result, bitpos);
      JoinedFits(result, v, bitpos);
      Rest32Unfolds(s, p, limit, bitpos, result, v);
    }
  }

  lemma NextPower(bitpos: nat)
    ensures Pow2(bitpos + 7) == 128 * Pow2(bitpos)
  {
    assert Pow2(bitpos + 7) == 2 * Pow2(bitpos + 6) && Pow2(bitpos + 6) == 4 * Pow2(bitpos + 4);
    assert Pow2(bitpos + 4) == 4 * Pow2(bitpos + 2) && Pow2(bitpos + 2) == 4 * Pow2(bitpos);
  }

  /** More digits follow only below the last position. */
  lemma BelowTop(v: nat, r: nat, f: nat, result: nat, bitpos: nat)
    requires v >= 128 && r <= v && v * f + result < TWO32 && f == Pow2(bitpos)
    requires bitpos == 7 || bitpos == 14 || bitpos == 21 || bitpos == 28
    ensures bitpos < 28 && r * f + result < TWO32
  {
    Powers();
    Distribute(v - r, r, f);
    Distribute(v - 128, 128, f);
    assert (v - r) * f >= 0 && (v - 128) * f >= 0;
  }

  lemma LastDigit32(v: nat, f: nat, result: nat, bitpos: nat)
    requires v < 128 && v * f + result < TWO32 && f == Pow2(bitpos)
    ensures bitpos == 28 ==> v / 16 % 8 == 0
  {
    Powers();
    if bitpos == 28 {
      assert v < 16;
    }
  }

  lemma Powers()
    ensures Pow2(7) == 128 && Pow2(14) == 16384 && Pow2(21) == 2097152 && Pow2(28) == 268435456 && Pow2(35) == 34359738368
  {
    assert Pow2(2) == 4 && Pow2(4) == 16 && Pow2(6) == 64 && Pow2(8) == 256 && Pow2(10) == 1024 && Pow2(12) == 4096;
    assert Pow2(16) == 65536 && Pow2(18) == 262144 && Pow2(20) == 1048576 && Pow2(22) == 4194304 && Pow2(24) == 16777216;
    assert Pow2(26) == 67108864 && Pow2(28) == 268435456 && Pow2(30) == 1073741824 && Pow2(32) == 4294967296 && Pow2(34) == 17179869184;
  }

  lemma Varint32Written(s: Bytes, p: nat, limit: nat, v: nat)
    requires StandsAt(s, p, Varint(v)) && p + |Varint(v)| <= limit <= |s| && v < TWO32
    ensures Varint32At(s, p, limit) == Some((v, p + |Varint(v)|))
  {
    hide Varint32Rest, Pow2, Varint, StandsAt;
    FirstByte(s, p, v);
    DivMod(v);
    if v >= 128 {
      Powers();
      Rest32Written(s, p + 1, limit, 7, v % 128, v / 128);
    }
  }

  lemma Varint64Written(s: Bytes, p: nat, limit: nat, v: nat)
    requires StandsAt(s, p, Varint(v)) && p + |Varint(v)| <= limit <= |s| && v < TWO64
    ensures Varint64At(s, p, limit) == Some((v, p + |Varint(v)|))
  {
    Varint64Length(v);
    VarintRoundTrip(v, s, p, limit, 10);
  }

  lemma SignedRoundTrip(w: nat, i: int)
    requires IsWidth(w) && 0 <= i + Half(w) < 2 * Half(w)
    ensures 0 <= AsUnsigned(i) < TWO64
    ensures w == 8 ==> AsSigned(AsUnsigned(i), 0x8000_0000_0000_0000) == i
    ensures w != 8 ==> AsSigned(AsUnsigned(i) % TWO32, 0x8000_0000) == i
  {
    if i < 0 && w != 8 {
      assert AsUnsigned(i) == (TWO32 - 1) * TWO32 + (i + TWO32);
    }
  }

  lemma ZigZagRoundTrip(w: nat, i: int)
    requires IsWidth(w) && 0 <= i + Half(w) < 2 * Half(w)
    ensures 0 <= ZigZag(i) < TWO64 && UnZigZag(ZigZag(i)) == i
  {
  }

  /** A scalar decodes to what was encoded. */
  lemma ScalarWritten(l: LType, v: Datum, s: Bytes, p: nat, limit: nat)
    requires TypeOk(l) && Packable(l) && ValueOk(l, v)
    requires StandsAt(s, p, ScalarBytes(l, v)) && p + |ScalarBytes(l, v)| <= limit <= |s|
    ensures ScalarAt(l, s, p, limit) == Some((v, p + |ScalarBytes(l, v)|))
  {
    hide Varint, EncodeFixed32, DecodeFixed32, DecodeFixed64, StandsAt, Varint32At, Varint64At;
    match l
    case BoolType => Varint32Written(s, p, limit, if v.b then 1 else 0);
    case IntType(w) => SignedRoundTrip(w, v.i); Varint64Written(s, p, limit, AsUnsigned(v.i));
    case UintType(w) => Varint64Written(s, p, limit, v.i);
    case SintType(w) => ZigZagRoundTrip(w, v.i); Varint64Written(s, p, limit, ZigZag(v.i));
    case Fixed32Type => Fixed32Stands(s, p, v.i);
    case Fixed64Type => Fixed64Stands(s, p, v.i);
  }

  lemma Fixed32Stands(s: Bytes, p: nat, i: nat)
    requires i < TWO32 && StandsAt(s, p, EncodeFixed32(i))
    ensures p + 4 <= |s| && DecodeFixed32(s[p..]) == i
  {
    hide EncodeFixed32, DecodeFixed32;
    Fixed32RoundTrip(i, s[p + 4..]);
    assert s[p..] == EncodeFixed32(i) + s[p + 4..];
  }

  lemma Fixed64Stands(s: Bytes, p: nat, i: nat)
    requires i < TWO64 && StandsAt(s, p, EncodeFixed64(i))
    ensures p + 8 <= |s| && DecodeFixed64(s[p..]) == i
  {
    hide EncodeFixed64, DecodeFixed64;
    Fixed64RoundTrip(i, s[p + 8..]);
    assert s[p..] == EncodeFixed64(i) + s[p + 8..];
  }

  /** Bytes with their length, and tags. */
  lemma StringWritten(s: Bytes, p: nat, limit: nat, bytes: Bytes)
    requires StandsAt(s, p, LengthPrefixed(bytes)) && p + |LengthPrefixed(bytes)| <= limit <= |s| < TWO32
    ensures StringAt(s, p, limit) == Some((bytes, p + |LengthPrefixed(bytes)|))
    ensures StandsAt(s, p + |LengthPrefixed(bytes)| - |bytes|, bytes)
  {
    hide Varint, Varint32At;
    StandsPart(s, p, Varint(|bytes|), bytes);
    Varint32Written(s, p, limit, |bytes|);
  }

  lemma TagWritten(s: Bytes, p: nat, limit: nat, wireType: nat, number: nat)
    requires wireType < 8 && 0 < number < 0x2000_0000
    requires StandsAt(s, p, WireTag(wireType, number)) && p + |WireTag(wireType, number)| <= limit <= |s|
    ensures TagAt(s, p, limit) == TagRead(number, wireType, p + |WireTag(wireType, number)|)
  {
    hide Varint, Varint32At, StandsAt;
    Varint32Written(s, p, limit, number * 8 + wireType);
  }

  // ---------- memory that nothing has been decoded into ----------

  /** What a message holds when it has just been set to defaults; arrays may hold anything. */
  ghost predicate FreshRooms(d: Descriptor, rooms: seq<Room>)
    requires |rooms| == |d.fields|
    decreases d
  {
    forall i :: 0 <= i < |rooms| ==> FreshRoom(d.fields[i], rooms[i])
  }

  ghost predicate FreshPlace(l: LType, p: Place)
    decreases l
  {
    if l.MessageType? then p.Struct? && |p.rooms| == |l.d.fields| && FreshRooms(l.d, p.rooms) else p == Leaf(ZeroValue(l))
  }

  ghost predicate FreshRoom(f: Field, r: Room)
    decreases f
  {
    match f.htype
    case Required => r.Single? && FreshPlace(f.ltype, r.place)
    case Proto3 => r.Single? && FreshPlace(f.ltype, r.place)
    case Optional => r.Flagged? && !r.has && FreshPlace(f.ltype, r.place)
    case OneOf(_) => r == Member(None)
    case Repeated(_) => r.Items? && r.count == 0
    case FixedCount(_) => r.Fixed?
  }

  lemma {:induction false} DefaultsAreFresh(env: Platform, d: Descriptor, rooms: seq<Room>)
    requires |rooms| == |d.fields|
    ensures FreshRooms(d, Defaults(env, d, rooms))
    decreases d
  {
    forall i | 0 <= i < |rooms|
      ensures FreshRoom(d.fields[i], DefaultRoom(env, d.fields[i], rooms[i]))
    {
      var f := d.fields[i];
      if f.ltype.MessageType? {
        DefaultsAreFresh(env, f.ltype.d, RoomsOf(f.ltype.d, PlaceOf(rooms[i], f.ltype)));
      }
    }
  }

  lemma {:induction false} ZeroIsFresh(l: LType)
    ensures FreshPlace(l, ZeroPlace(l))
    decreases l
  {
    if l.MessageType? {
      forall i | 0 <= i < |l.d.fields|
        ensures FreshRoom(l.d.fields[i], ZeroRoom(l.d.fields[i]))
      {
        ZeroIsFresh(l.d.fields[i].ltype);
      }
    }
  }

  /** A value that nanopb takes for absent is what fresh memory holds. */
  lemma {:induction false} DefaultIsFresh(l: LType, v: Datum, p: Place)
    requires TypeOk(l) && ValueOk(l, v) && IsDefault(l, v) && FreshPlace(l, p)
    ensures ValueIn(p) == v
    decreases l
  {
    if l.MessageType? {
      DefaultMessageIsFresh(l.d, v.slots, p.rooms);
    } else if l.FixedBytesType? {
      assert ZeroValue(l).bytes == v.bytes;
    }
  }

  lemma {:induction false} DefaultMessageIsFresh(d: Descriptor, m: seq<Slot>, rooms: seq<Room>)
    requires DescriptorOk(d) && MessageOk(d, m) && IsDefaultMessage(d, m) && |rooms| == |d.fields| && FreshRooms(d, rooms)
    ensures MessageIn(rooms) == m
    decreases d
  {
    hide ValueOk, IsDefault, FreshPlace, ValueIn;
    forall i | 0 <= i < |m|
      ensures SlotIn(rooms[i]) == m[i]
    {
      var f := d.fields[i];
      assert TypeOk(f.ltype) && SlotOk(f, m[i]) && IsDefaultSlot(f, m[i]) && FreshRoom(f, rooms[i]);
      if f.htype.Proto3? {
        DefaultIsFresh(f.ltype, m[i].value, rooms[i].place);
      }
    }
    assert MessageIn(rooms) == m;
  }

  // ---------- how far the decoder has come after some fields ----------

  /** The first `n` fields hold the message, the others nothing yet. */
  ghost predicate Holds(d: Descriptor, m: seq<Slot>, n: nat, rooms: seq<Room>)
    requires |m| == |rooms| == |d.fields|
  {
    forall i :: 0 <= i < |rooms| ==> if i < n then SlotIn(rooms[i]) == m[i] else FreshRoom(d.fields[i], rooms[i])
  }

  /** The required fields seen among the first `n`. */
  ghost function SeenAfter(d: Descriptor, n: nat): (r: set<nat>)
    requires n <= |d.fields|
    ensures forall k: nat :: k in r <==> k < RequiredBefore(d, n) && k < MAX_REQUIRED_FIELDS
  {
    set k | 0 <= k < MAX_REQUIRED_FIELDS && IsBefore(k, RequiredBefore(d, n))
  }

  predicate IsBefore(k: int, n: nat) {
    k < n
  }

  /** The last fixed-count field with items among the first `n`. */
  ghost function LastFixed(d: Descriptor, n: nat): Option<nat>
    requires n <= |d.fields|
  {
    if n == 0 then None
    else if d.fields[n - 1].htype.FixedCount? && d.fields[n - 1].htype.count > 0 then Some(n - 1)
    else LastFixed(d, n - 1)
  }

  ghost function FixedSizeAfter(d: Descriptor, n: nat): nat
    requires n <= |d.fields|
  {
    if n == 0 then 0
    else if d.fields[n - 1].htype.FixedCount? && d.fields[n - 1].htype.count > 0 then d.fields[n - 1].htype.count
    else FixedSizeAfter(d, n - 1)
  }

  ghost predicate After(d: Descriptor, m: seq<Slot>, n: nat, st: Progress)
    requires DescriptorOk(d) && |m| == |d.fields| && n <= |m|
  {
    && ProgressOk(d, st) && |st.rooms| == |m| && Holds(d, m, n, st.rooms)
    && st.seen == SeenAfter(d, n) && st.fixedField == LastFixed(d, n) && st.fixedSize == FixedSizeAfter(d, n)
  }

  lemma {:induction false} FixedIsDone(d: Descriptor, n: nat)
    requires n <= |d.fields|
    ensures LastFixed(d, n).Some? ==>
              && LastFixed(d, n).value < n && d.fields[LastFixed(d, n).value].htype.FixedCount?
              && FixedSizeAfter(d, n) == d.fields[LastFixed(d, n).value].htype.count
  {
    if n > 0 {
      FixedIsDone(d, n - 1);
    }
  }

  /** A tagged value takes the decoder through one round of its loop. */
  lemma TaggedRound(env: Platform, d: Descriptor, i: nat, wireType: nat, s: Bytes, p: nat, limit: nat, st: Progress)
    requires DescriptorOk(d) && i < |d.fields| && |st.rooms| == |d.fields| && wireType < 8
    requires StandsAt(s, p, WireTag(wireType, d.fields[i].tag)) && p + |WireTag(wireType, d.fields[i].tag)| <= limit <= |s|
    ensures var q := p + |WireTag(wireType, d.fields[i].tag)|;
            MessageAt(env, d, s, p, limit, st) ==
              match Noted(d, i, st)
              case None => None
              case Some(noted) =>
                match FieldAt(env, d, i, wireType, s, q, limit, noted)
                case None => None
                case Some((next, r)) => MessageAt(env, d, s, r, limit, next)
  {
    hide Noted, FieldAt, WireTag, StandsAt, TagAt;
    TagWritten(s, p, limit, wireType, d.fields[i].tag);
    FoundField(d, i, |d.fields|);
  }

  lemma {:induction false} NoZeros(bytes: Bytes)
    requires forall k :: 0 <= k < |bytes| ==> bytes[k] != 0
    ensures UpToZero(bytes) == bytes
  {
    if bytes != [] {
      NoZeros(bytes[1..]);
    }
  }

  /** A value, decoded into a place that holds nothing yet. */
  lemma {:induction false} PlaceWritten(env: Platform, l: LType, v: Datum, s: Bytes, p: nat, limit: nat, current: Place, init: bool)
    requires PlatformOk(env) && TypeOk(l) && ValueOk(l, v) && PlaceShaped(l, current)
    requires l.MessageType? ==> FreshRooms(l.d, StartsWith(env, l.d, current, init))
    requires StandsAt(s, p, ValueBytes(l, v)) && p + |ValueBytes(l, v)| <= limit <= |s| < TWO32
    ensures var r := PlaceAt(env, l, s, p, limit, current, init);
            r.Some? && ValueIn(r.value.0) == v && r.value.1 == p + |ValueBytes(l, v)| && PlaceShaped(l, r.value.0)
    decreases l, 3
  {
    hide PlatformOk, StandsAt, ScalarAt, StringAt, MessageAt, ScalarBytes, MessageBytes, Shaped, FreshRooms, StartsWith, MessageIn;
    PlaceDecoded(env, l, s, p, limit, current, init);
    if Packable(l) {
      ScalarWritten(l, v, s, p, limit);
    } else if l.MessageType? {
      var e := MessageBytes(l.d, v.slots);
      StringWritten(s, p, limit, e);
      StartShaped(env, l.d, current, init);
      MessageWritten(env, l.d, v.slots, s, p + |LengthPrefixed(e)| - |e|, StartsWith(env, l.d, current, init));
    } else {
      StringWritten(s, p, limit, v.bytes);
      if l.StringType? {
        NoZeros(v.bytes);
      }
      assert l.FixedBytesType? && l.size == 0 ==> ZeroValue(l).bytes == v.bytes;
    }
  }

  // ---------- single values ----------

  ghost predicate IsSingle(h: HType) {
    h.Required? || h.Proto3? || h.Optional? || h.OneOf?
  }

  ghost function SlotWith(f: Field, v: Datum): Slot {
    if f.htype.Required? || f.htype.Proto3? then One(v) else Maybe(Some(v))
  }

  lemma NotedSingle(d: Descriptor, m: seq<Slot>, i: nat, st: Progress)
    requires DescriptorOk(d) && |m| == |d.fields| && i < |m| && IsSingle(d.fields[i].htype) && After(d, m, i, st)
    ensures Noted(d, i, st) == Some(st.(seen := SeenAfter(d, i + 1)))
    ensures LastFixed(d, i + 1) == LastFixed(d, i) && FixedSizeAfter(d, i + 1) == FixedSizeAfter(d, i)
    ensures ProgressOk(d, st.(seen := SeenAfter(d, i + 1))) && |st.rooms| == |d.fields|
  {
    hide Shaped, DescriptorOk, Holds;
    if d.fields[i].htype.Required? {
      assert SeenAfter(d, i + 1) == if RequiredBefore(d, i) < MAX_REQUIRED_FIELDS then SeenAfter(d, i) + {RequiredBefore(d, i)} else SeenAfter(d, i);
    } else {
      assert SeenAfter(d, i + 1) == SeenAfter(d, i);
    }
  }

  lemma ValueHeld(d: Descriptor, m: seq<Slot>, i: nat, rooms: seq<Room>, p: Place)
    requires DescriptorOk(d) && MessageOk(d, m) && |rooms| == |m| == |d.fields| && i < |m| && IsSingle(d.fields[i].htype)
    requires Holds(d, m, i, rooms) && m[i] == SlotWith(d.fields[i], ValueIn(p))
    ensures Holds(d, m, i + 1, WithValue(d, rooms, i, p))
  {
    hide TypeOk, ValueOk, ValueIn, FreshPlace;
    var after := WithValue(d, rooms, i, p);
    forall k | 0 <= k < |m|
      ensures if k < i + 1 then SlotIn(after[k]) == m[k] else FreshRoom(d.fields[k], after[k])
    {
      if k != i && d.fields[i].htype.OneOf? && d.fields[k].htype == d.fields[i].htype {
        assert SlotOk(d.fields[k], m[k]);
      }
    }
  }

  lemma FreshPayload(env: Platform, f: Field, r: Room)
    requires TypeOk(f.ltype) && RoomShaped(f, r) && FreshRoom(f, r) && IsSingle(f.htype)
    ensures PlaceShaped(f.ltype, Payload(f, r))
    ensures f.ltype.MessageType? ==> FreshRooms(f.ltype.d, StartsWith(env, f.ltype.d, Payload(f, r), false))
  {
    hide Shaped, FreshRooms, ZeroRooms, ValueOk;
    PayloadShaped(f, r);
    ZeroIsFresh(f.ltype);
  }

  lemma {:induction false} SingleWritten(env: Platform, d: Descriptor, m: seq<Slot>, i: nat, v: Datum, s: Bytes, p: nat,
          limit: nat, st: Progress) returns (next: Progress)
    requires PlatformOk(env) && DescriptorOk(d) && MessageOk(d, m) && |m| == |d.fields| && i < |m|
             && IsSingle(d.fields[i].htype) && After(d, m, i, st)
    requires ValueOk(d.fields[i].ltype, v) && m[i] == SlotWith(d.fields[i], v)
    requires StandsAt(s, p, TaggedBytes(d.fields[i], v)) && p + |TaggedBytes(d.fields[i], v)| <= limit <= |s| < TWO32
    ensures After(d, m, i + 1, next) && |st.rooms| == |next.rooms| == |d.fields|
    ensures MessageAt(env, d, s, p, limit, st) == MessageAt(env, d, s, p + |TaggedBytes(d.fields[i], v)|, limit, next)
    decreases d, 0
  {
    hide PlatformOk, MessageAt, MessageOk, DescriptorOk, ValueOk, StandsAt, WireTag, ValueBytes, Noted, PlaceAt, Shaped,
         RoomShaped, FreshRoom, Holds, WithValue, StartsWith, FreshRooms, PlaceShaped, ValueIn;
    var f := d.fields[i];
    var tag := WireTag(WireType(f.ltype), f.tag);
    var noted := st.(seen := SeenAfter(d, i + 1));
    FieldTypeOk(d, i);
    StandsPart(s, p, tag, ValueBytes(f.ltype, v));
    NotedSingle(d, m, i, st);
    RoomIsShaped(d, st.rooms, i);
    RoomIsFresh(d, m, i, st);
    FreshPayload(env, f, st.rooms[i]);
    TaggedRound(env, d, i, WireType(f.ltype), s, p, limit, st);
    PlaceWritten(env, f.ltype, v, s, p + |tag|, limit, Payload(f, st.rooms[i]), false);
    var place := PlaceAt(env, f.ltype, s, p + |tag|, limit, Payload(f, st.rooms[i]), false).value.0;
    next := noted.(rooms := WithValue(d, st.rooms, i, place));
    ValueHeld(d, m, i, st.rooms, place);
    WithValueShaped(d, st.rooms, i, place);
  }

  lemma RoomIsFresh(d: Descriptor, m: seq<Slot>, i: nat, st: Progress)
    requires DescriptorOk(d) && |m| == |d.fields| && i < |m| && After(d, m, i, st)
    ensures |st.rooms| == |d.fields| && FreshRoom(d.fields[i], st.rooms[i]) && Holds(d, m, i, st.rooms)
  {
  }

  lemma FieldTypeOk(d: Descriptor, i: nat)
    requires DescriptorOk(d) && i < |d.fields|
    ensures TypeOk(d.fields[i].ltype) && 0 < d.fields[i].tag < 0x2000_0000
  {
  }

  // ---------- arrays ----------

  /** The first `k` items of the array in field `i` are there. */
  ghost predicate HoldsItems(d: Descriptor, m: seq<Slot>, i: nat, k: nat, rooms: seq<Room>)
    requires |m| == |rooms| == |d.fields| && i < |m| && m[i].Many? && k <= |m[i].values|
  {
    && (forall j :: 0 <= j < |rooms| && j != i ==> if j < i then SlotIn(rooms[j]) == m[j] else FreshRoom(d.fields[j], rooms[j]))
    && (rooms[i].Items? || rooms[i].Fixed?)
    && (rooms[i].Items? ==> rooms[i].count == k)
    && k <= |PlacesOf(rooms[i])|
    && forall j :: 0 <= j < k ==> ValueIn(PlacesOf(rooms[i])[j]) == m[i].values[j]
  }

  ghost predicate IsArray(d: Descriptor, m: seq<Slot>, i: nat) {
    && |m| == |d.fields| && i < |m| && m[i].Many?
    && match d.fields[i].htype
       case Repeated(max) => |m[i].values| <= max
       case FixedCount(count) => |m[i].values| == count
       case _ => false
  }

  ghost predicate AfterItems(d: Descriptor, m: seq<Slot>, i: nat, k: nat, st: Progress)
    requires DescriptorOk(d) && IsArray(d, m, i) && k <= |m[i].values|
  {
    var fixed := d.fields[i].htype.FixedCount? && k > 0;
    && ProgressOk(d, st) && |st.rooms| == |m| && HoldsItems(d, m, i, k, st.rooms)
    && st.seen == SeenAfter(d, i)
    && st.fixedField == (if fixed then Some(i) else LastFixed(d, i))
    && st.fixedSize == if fixed then k else FixedSizeAfter(d, i)
  }

  lemma ArrayStarts(d: Descriptor, m: seq<Slot>, i: nat, st: Progress)
    requires DescriptorOk(d) && IsArray(d, m, i) && After(d, m, i, st)
    ensures AfterItems(d, m, i, 0, st)
  {
    hide Shaped, DescriptorOk, SlotIn;
    assert FreshRoom(d.fields[i], st.rooms[i]);
  }

  lemma ArrayEnds(d: Descriptor, m: seq<Slot>, i: nat, st: Progress)
    requires DescriptorOk(d) && IsArray(d, m, i) && AfterItems(d, m, i, |m[i].values|, st)
    ensures After(d, m, i + 1, st)
  {
    hide DescriptorOk, FreshRoom, ValueIn, PlaceShaped;
    assert SeenAfter(d, i + 1) == SeenAfter(d, i);
    ProgressShape(d, st, i);
    assert SlotIn(st.rooms[i]).values == m[i].values;
  }

  /** What is noted about an array: a fixed-count array starts at its first item. */
  ghost function ArrayNoted(d: Descriptor, i: nat, k: nat, st: Progress): Progress
    requires i < |d.fields|
  {
    if d.fields[i].htype.FixedCount? then st.(fixedField := Some(i), fixedSize := k) else st
  }

  lemma NotedArray(d: Descriptor, m: seq<Slot>, i: nat, k: nat, st: Progress)
    requires DescriptorOk(d) && IsArray(d, m, i) && k < |m[i].values| && AfterItems(d, m, i, k, st)
    ensures Noted(d, i, st) == Some(ArrayNoted(d, i, k, st)) && ProgressOk(d, ArrayNoted(d, i, k, st))
    ensures |st.rooms| == |d.fields| && RoomShaped(d.fields[i], st.rooms[i]) && TypeOk(d.fields[i].ltype)
    ensures CountOf(ArrayNoted(d, i, k, st), st.rooms[i]) == k <= |m[i].values| <= |PlacesOf(st.rooms[i])|
  {
    hide Shaped, DescriptorOk, PlaceShaped, FreshRoom, SlotIn;
    FixedIsDone(d, i);
    ProgressShape(d, st, i);
  }

  /** More items take the array from its first `k` to its first `n`. */
  lemma ItemsHeld(d: Descriptor, m: seq<Slot>, i: nat, k: nat, n: nat, st: Progress, more: seq<Place>)
    requires DescriptorOk(d) && IsArray(d, m, i) && k < n <= |m[i].values| && AfterItems(d, m, i, k, st)
    requires AllShaped(d.fields[i].ltype, more) && |more| == n - k && forall j :: 0 <= j < |more| ==> ValueIn(more[j]) == m[i].values[k + j]
    requires var noted := ArrayNoted(d, i, k, st);
             |noted.rooms| == |d.fields| && CountOf(noted, noted.rooms[i]) + |more| <= |PlacesOf(noted.rooms[i])|
    ensures AfterItems(d, m, i, n, WithItems(ArrayNoted(d, i, k, st), i, more))
  {
    hide DescriptorOk, Shaped, PlaceShaped, AllShaped, HoldsItems, Spliced, ProgressOk;
    NotedArray(d, m, i, k, st);
    var noted := ArrayNoted(d, i, k, st);
    ItemsShaped(d, i, noted, more);
    SplicedItems(noted, i, more);
    MoreHeld(d, m, i, k, n, st.rooms, WithItems(noted, i, more).rooms, more);
  }

  lemma MoreHeld(d: Descriptor, m: seq<Slot>, i: nat, k: nat, n: nat, rooms: seq<Room>, after: seq<Room>, more: seq<Place>)
    requires IsArray(d, m, i) && k < n <= |m[i].values| && |rooms| == |d.fields| && HoldsItems(d, m, i, k, rooms)
    requires |more| == n - k && k + |more| <= |PlacesOf(rooms[i])| && forall j :: 0 <= j < |more| ==> ValueIn(more[j]) == m[i].values[k + j]
    requires var all := Spliced(PlacesOf(rooms[i]), k, more); after == rooms[i := if rooms[i].Items? then Items(all, n) else Fixed(all)]
    ensures HoldsItems(d, m, i, n, after)
  {
    hide ValueIn, SlotIn, FreshRoom;
    var all := PlacesOf(after[i]);
    forall j | 0 <= j < n
      ensures ValueIn(all[j]) == m[i].values[j]
    {
      if j < k {
        assert all[j] == PlacesOf(rooms[i])[j];
      } else {
        assert all[j] == more[j - k];
      }
    }
  }

  lemma {:induction false} ItemWritten(env: Platform, d: Descriptor, m: seq<Slot>, i: nat, k: nat, s: Bytes, p: nat, limit: nat,
          st: Progress) returns (next: Progress)
    requires PlatformOk(env) && DescriptorOk(d) && IsArray(d, m, i) && k < |m[i].values| && AfterItems(d, m, i, k, st)
    requires !Packable(d.fields[i].ltype) && ValueOk(d.fields[i].ltype, m[i].values[k])
    requires var e := TaggedBytes(d.fields[i], m[i].values[k]); StandsAt(s, p, e) && p + |e| <= limit <= |s| < TWO32
    ensures AfterItems(d, m, i, k + 1, next) && |st.rooms| == |next.rooms| == |d.fields|
    ensures MessageAt(env, d, s, p, limit, st) == MessageAt(env, d, s, p + |TaggedBytes(d.fields[i], m[i].values[k])|, limit, next)
    decreases d, 0
  {
    hide PlatformOk, MessageAt, DescriptorOk, ValueOk, StandsAt, WireTag, ValueBytes, Noted, PlaceAt, Shaped, RoomShaped,
         PlaceShaped, CountOf, PlacesOf, WithItems, FreshRooms, StartsWith, FieldAt, AfterItems, ValueIn;
    var f, v := d.fields[i], m[i].values[k];
    var tag := WireTag(WireType(f.ltype), f.tag);
    FieldTypeOk(d, i);
    StandsPart(s, p, tag, ValueBytes(f.ltype, v));
    NotedArray(d, m, i, k, st);
    var noted := ArrayNoted(d, i, k, st);
    TaggedRound(env, d, i, WireType(f.ltype), s, p, limit, st);
    SingleItem(env, d, i, WireType(f.ltype), s, p + |tag|, limit, noted);
    var current := PlacesOf(st.rooms[i])[k];
    ItemShaped(f, st.rooms[i], k);
    StartIsFresh(env, f.ltype, current);
    PlaceWritten(env, f.ltype, v, s, p + |tag|, limit, current, true);
    var place := PlaceAt(env, f.ltype, s, p + |tag|, limit, current, true).value.0;
    ItemsHeld(d, m, i, k, k + 1, st, [place]);
    next := WithItems(noted, i, [place]);
  }

  lemma StartIsFresh(env: Platform, l: LType, current: Place)
    ensures l.MessageType? ==> FreshRooms(l.d, StartsWith(env, l.d, current, true))
  {
    if l.MessageType? {
      DefaultsAreFresh(env, l.d, RoomsOf(l.d, current));
    }
  }

  lemma {:induction false} ItemsWritten(env: Platform, d: Descriptor, m: seq<Slot>, i: nat, k: nat, s: Bytes, p: nat, limit: nat,
          st: Progress) returns (next: Progress)
    requires PlatformOk(env) && DescriptorOk(d) && IsArray(d, m, i) && k <= |m[i].values| && AfterItems(d, m, i, 0, st)
    requires !Packable(d.fields[i].ltype) && ValuesOk(d.fields[i].ltype, m[i].values)
    requires var e := ItemsBytes(d.fields[i], m[i].values[..k]); StandsAt(s, p, e) && p + |e| <= limit <= |s| < TWO32
    ensures AfterItems(d, m, i, k, next) && |st.rooms| == |next.rooms| == |d.fields|
    ensures MessageAt(env, d, s, p, limit, st) == MessageAt(env, d, s, p + |ItemsBytes(d.fields[i], m[i].values[..k])|, limit, next)
    decreases d, 1, k
  {
    hide PlatformOk, MessageAt, DescriptorOk, ValueOk, StandsAt, TaggedBytes, ProgressOk, HoldsItems;
    next := st;
    if k > 0 {
      var f, vs := d.fields[i], m[i].values;
      FieldTypeOk(d, i);
      assert vs[..k][..k - 1] == vs[..k - 1];
      var before := ItemsBytes(f, vs[..k - 1]);
      StandsPart(s, p, before, TaggedBytes(f, vs[k - 1]));
      next := ItemsWritten(env, d, m, i, k - 1, s, p, limit, st);
      next := ItemWritten(env, d, m, i, k - 1, s, p + |before|, limit, next);
    }
  }

  lemma ScalarNotEmpty(l: LType, v: Datum)
    requires TypeOk(l) && Packable(l) && ValueOk(l, v)
    ensures |ScalarBytes(l, v)| > 0
  {
  }

  /** The items of a packed array from the `k`-th on. */
  lemma {:induction false} PackedWritten(l: LType, vs: seq<Datum>, k: nat, s: Bytes, p: nat, room: nat)
    requires TypeOk(l) && Packable(l) && ValuesOk(l, vs) && k <= |vs| <= room + k
    requires StandsAt(s, p, PackedBytes(l, vs))
    ensures var q, end := p + |PackedBytes(l, vs[..k])|, p + |PackedBytes(l, vs)|;
            q <= end <= |s| && PackedItems(l, s, q, end, room) == Some(vs[k..])
    decreases |vs| - k
  {
    hide ScalarBytes, ScalarAt, ValueOk, StandsAt, PackedBytes;
    PackedPrefix(l, vs, k);
    StandsPrefix(s, p, PackedBytes(l, vs), PackedBytes(l, vs[..k]));
    if k < |vs| {
      PackedPrefix(l, vs, k + 1);
      var before, e := PackedBytes(l, vs[..k]), ScalarBytes(l, vs[k]);
      OneMorePacked(l, vs, k);
      StandsPrefix(s, p, PackedBytes(l, vs), before + e);
      StandsPart(s, p, before, e);
      ScalarNotEmpty(l, vs[k]);
      ScalarWritten(l, vs[k], s, p + |before|, p + |PackedBytes(l, vs)|);
      PackedWritten(l, vs, k + 1, s, p, room - 1);
      assert [vs[k]] + vs[k + 1..] == vs[k..];
    } else {
      assert vs[..k] == vs && vs[k..] == [];
    }
  }

  lemma OneMorePacked(l: LType, vs: seq<Datum>, k: nat)
    requires TypeOk(l) && Packable(l) && ValuesOk(l, vs) && k < |vs|
    ensures PackedBytes(l, vs[..k + 1]) == PackedBytes(l, vs[..k]) + ScalarBytes(l, vs[k])
  {
    hide ScalarBytes, ValueOk;
    assert vs[..k + 1][..k] == vs[..k];
  }

  lemma StandsPrefix(s: Bytes, p: nat, b: Bytes, a: Bytes)
    requires StandsAt(s, p, b) && a <= b
    ensures StandsAt(s, p, a) && p + |b| <= |s|
  {
    assert b == a + b[|a|..];
    StandsPart(s, p, a, b[|a|..]);
  }

  lemma PackedAtWritten(l: LType, vs: seq<Datum>, s: Bytes, p: nat, limit: nat, room: nat)
    requires TypeOk(l) && Packable(l) && ValuesOk(l, vs) && |vs| <= room
    requires var e := LengthPrefixed(PackedBytes(l, vs)); StandsAt(s, p, e) && p + |e| <= limit <= |s| < TWO32
    ensures PackedAt(l, s, p, limit, room) == Some((vs, p + |LengthPrefixed(PackedBytes(l, vs))|))
  {
    hide PackedBytes, ScalarBytes, ScalarAt, ValueOk, Varint, Varint32At, PackedItems;
    var e := PackedBytes(l, vs);
    StandsPart(s, p, Varint(|e|), e);
    Varint32Written(s, p, limit, |e|);
    PackedWritten(l, vs, 0, s, p + |Varint(|e|)|, room);
    NothingPacked(l);
    assert vs[..0] == [] && vs[0..] == vs;
  }

  lemma NothingPacked(l: LType)
    requires TypeOk(l) && Packable(l)
    ensures PackedBytes(l, []) == []
  {
  }

  lemma PackedArrayWritten(env: Platform, d: Descriptor, m: seq<Slot>, i: nat, s: Bytes, p: nat, limit: nat, st: Progress) returns (next: Progress)
    requires PlatformOk(env) && DescriptorOk(d) && IsArray(d, m, i) && m[i].values != [] && AfterItems(d, m, i, 0, st)
    requires Packable(d.fields[i].ltype) && ValuesOk(d.fields[i].ltype, m[i].values)
    requires var e := ArrayBytes(d.fields[i], m[i].values); StandsAt(s, p, e) && p + |e| <= limit <= |s| < TWO32
    ensures AfterItems(d, m, i, |m[i].values|, next) && |st.rooms| == |next.rooms| == |d.fields|
    ensures MessageAt(env, d, s, p, limit, st) == MessageAt(env, d, s, p + |ArrayBytes(d.fields[i], m[i].values)|, limit, next)
  {
    hide PlatformOk, MessageAt, DescriptorOk, ValueOk, StandsAt, WireTag, PackedBytes, Noted, Shaped, RoomShaped, PlaceShaped,
         CountOf, PlacesOf, WithItems, FieldAt, AfterItems, PackedAt, LengthPrefixed;
    var f, vs := d.fields[i], m[i].values;
    var tag := WireTag(WT_STRING, f.tag);
    FieldTypeOk(d, i);
    StandsPart(s, p, tag, LengthPrefixed(PackedBytes(f.ltype, vs)));
    NotedArray(d, m, i, 0, st);
    var noted := ArrayNoted(d, i, 0, st);
    TaggedRound(env, d, i, WT_STRING, s, p, limit, st);
    PackedField(env, d, i, WT_STRING, s, p + |tag|, limit, noted);
    PackedAtWritten(f.ltype, vs, s, p + |tag|, limit, |PlacesOf(st.rooms[i])|);
    LeavesAreShaped(f.ltype, vs);
    ItemsHeld(d, m, i, 0, |vs|, st, Leaves(vs));
    next := WithItems(noted, i, Leaves(vs));
  }

  // ---------- fields and messages ----------

  lemma ArrayIsArray(d: Descriptor, m: seq<Slot>, i: nat)
    requires DescriptorOk(d) && MessageOk(d, m) && i < |m| && !IsSingle(d.fields[i].htype)
    ensures IsArray(d, m, i) && ValuesOk(d.fields[i].ltype, m[i].values)
    ensures FieldBytes(d.fields[i], m[i]) == ArrayBytes(d.fields[i], m[i].values)
  {
  }

  lemma {:induction false} ArrayWritten(env: Platform, d: Descriptor, m: seq<Slot>, i: nat, s: Bytes, p: nat, limit: nat,
          st: Progress) returns (next: Progress)
    requires PlatformOk(env) && DescriptorOk(d) && IsArray(d, m, i) && ValuesOk(d.fields[i].ltype, m[i].values) && After(d, m, i, st)
    requires var e := ArrayBytes(d.fields[i], m[i].values); StandsAt(s, p, e) && p + |e| <= limit <= |s| < TWO32
    ensures After(d, m, i + 1, next) && |st.rooms| == |next.rooms| == |d.fields|
    ensures MessageAt(env, d, s, p, limit, st) == MessageAt(env, d, s, p + |ArrayBytes(d.fields[i], m[i].values)|, limit, next)
    decreases d, 2
  {
    hide PlatformOk, MessageAt, DescriptorOk, ValueOk, StandsAt, AfterItems, PackedBytes, ItemsBytes, ProgressOk, Holds;
    var vs := m[i].values;
    ArrayStarts(d, m, i, st);
    next := st;
    if vs != [] {
      if Packable(d.fields[i].ltype) {
        next := PackedArrayWritten(env, d, m, i, s, p, limit, st);
      } else {
        assert vs[..|vs|] == vs;
        next := ItemsWritten(env, d, m, i, |vs|, s, p, limit, st);
      }
    }
    ArrayEnds(d, m, i, next);
  }

  /** A field that is left out leaves the decoder where it was. */
  lemma NothingWritten(d: Descriptor, m: seq<Slot>, i: nat, st: Progress)
    requires DescriptorOk(d) && MessageOk(d, m) && |m| == |d.fields| && i < |m| && After(d, m, i, st)
    requires IsSingle(d.fields[i].htype) && TypeOk(d.fields[i].ltype) && SlotOk(d.fields[i], m[i]) && FieldBytes(d.fields[i], m[i]) == []
    ensures After(d, m, i + 1, st)
  {
    hide DescriptorOk, MessageOk, ValueOk, FreshPlace, IsDefault, Shaped, Varint, ValueBytes;
    var f := d.fields[i];
    assert FreshRoom(f, st.rooms[i]);
    LeftOut(f, m[i]);
    if f.htype.Proto3? {
      DefaultIsFresh(f.ltype, m[i].value, st.rooms[i].place);
    }
    assert SlotIn(st.rooms[i]) == m[i];
    assert SeenAfter(d, i + 1) == SeenAfter(d, i);
  }

  lemma TaggedNotEmpty(f: Field, v: Datum)
    requires TypeOk(f.ltype) && ValueOk(f.ltype, v)
    ensures |TaggedBytes(f, v)| > 0
  {
    hide ValueBytes;
  }

  lemma LeftOut(f: Field, s: Slot)
    requires TypeOk(f.ltype) && SlotOk(f, s) && IsSingle(f.htype)
    ensures FieldBytes(f, s) == [] ==> if f.htype.Proto3? then IsDefault(f.ltype, s.value) else !f.htype.Required? && s == Maybe(None)
  {
    hide TaggedBytes, IsDefault, ValueOk;
    if s.One? {
      TaggedNotEmpty(f, s.value);
    } else if s.option.Some? {
      TaggedNotEmpty(f, s.option.value);
    }
  }

  /** What a field without an array puts on the wire. */
  lemma SingleBytes(f: Field, s: Slot) returns (v: Datum)
    requires TypeOk(f.ltype) && SlotOk(f, s) && IsSingle(f.htype) && FieldBytes(f, s) != []
    ensures ValueOk(f.ltype, v) && s == SlotWith(f, v) && FieldBytes(f, s) == TaggedBytes(f, v)
  {
    hide Varint, ValueBytes;
    v := if s.One? then s.value else s.option.value;
  }

  lemma {:induction false} FieldWritten(env: Platform, d: Descriptor, m: seq<Slot>, i: nat, s: Bytes, p: nat, limit: nat,
          st: Progress) returns (next: Progress)
    requires PlatformOk(env) && DescriptorOk(d) && MessageOk(d, m) && |m| == |d.fields| && i < |m| && After(d, m, i, st)
    requires TypeOk(d.fields[i].ltype) && SlotOk(d.fields[i], m[i])
    requires StandsAt(s, p, FieldBytes(d.fields[i], m[i])) && p + |FieldBytes(d.fields[i], m[i])| <= limit <= |s| < TWO32
    ensures After(d, m, i + 1, next) && |st.rooms| == |next.rooms| == |d.fields|
    ensures MessageAt(env, d, s, p, limit, st) == MessageAt(env, d, s, p + |FieldBytes(d.fields[i], m[i])|, limit, next)
    decreases d, 3
  {
    hide PlatformOk, MessageAt, DescriptorOk, MessageOk, ValueOk, StandsAt, FieldBytes, ArrayBytes, ProgressOk, Holds, TaggedBytes;
    if IsSingle(d.fields[i].htype) {
      if FieldBytes(d.fields[i], m[i]) == [] {
        NothingWritten(d, m, i, st);
        next := st;
      } else {
        var v := SingleBytes(d.fields[i], m[i]);
        next := SingleWritten(env, d, m, i, v, s, p, limit, st);
      }
    } else {
      ArrayIsArray(d, m, i);
      next := ArrayWritten(env, d, m, i, s, p, limit, st);
    }
  }

  lemma {:induction false} FieldsWritten(env: Platform, d: Descriptor, m: seq<Slot>, n: nat, s: Bytes, p: nat, limit: nat,
          st: Progress) returns (next: Progress)
    requires PlatformOk(env) && DescriptorOk(d) && MessageOk(d, m) && |m| == |d.fields| && n <= |m| && After(d, m, 0, st)
    requires StandsAt(s, p, FieldsBytes(d, m, n)) && p + |FieldsBytes(d, m, n)| <= limit <= |s| < TWO32
    ensures After(d, m, n, next) && |st.rooms| == |next.rooms| == |d.fields|
    ensures MessageAt(env, d, s, p, limit, st) == MessageAt(env, d, s, p + |FieldsBytes(d, m, n)|, limit, next)
    decreases d, 4, n
  {
    hide PlatformOk, MessageAt, MessageOk, DescriptorOk, StandsAt, FieldBytes, ProgressOk, Holds;
    next := st;
    if n > 0 {
      var before := FieldsBytes(d, m, n - 1);
      FieldWellFormed(d, m, n - 1);
      StandsPart(s, p, before, FieldBytes(d.fields[n - 1], m[n - 1]));
      next := FieldsWritten(env, d, m, n - 1, s, p, limit, st);
      next := FieldWritten(env, d, m, n - 1, s, p + |before|, limit, next);
    }
  }

  lemma FieldWellFormed(d: Descriptor, m: seq<Slot>, i: nat)
    requires DescriptorOk(d) && MessageOk(d, m) && i < |m|
    ensures |m| == |d.fields| && TypeOk(d.fields[i].ltype) && SlotOk(d.fields[i], m[i])
  {
  }

  lemma NoneSeen(d: Descriptor)
    ensures SeenAfter(d, 0) == {}
  {
    assert forall k: nat :: k !in SeenAfter(d, 0);
  }

  lemma NothingYet(d: Descriptor, m: seq<Slot>, rooms: seq<Room>)
    requires DescriptorOk(d) && |m| == |d.fields| && Shaped(d, rooms) && |rooms| == |m| && FreshRooms(d, rooms)
    ensures After(d, m, 0, Start(rooms))
  {
    hide DescriptorOk, Shaped, FreshRoom;
    NoneSeen(d);
  }

  lemma AllWritten(d: Descriptor, m: seq<Slot>, st: Progress)
    requires DescriptorOk(d) && |m| == |d.fields| && After(d, m, |m|, st)
    ensures Finished(d, st) == Some(st.rooms) && MessageIn(st.rooms) == m
  {
    hide DescriptorOk, Shaped, SlotIn, RequiredBefore;
    FixedIsDone(d, |m|);
    assert MessageIn(st.rooms) == m;
  }

  /** Where the bytes of a message stand, the decoder finds the message. */
  lemma {:induction false} MessageWritten(env: Platform, d: Descriptor, m: seq<Slot>, s: Bytes, p: nat, rooms: seq<Room>)
    requires PlatformOk(env) && DescriptorOk(d) && MessageOk(d, m) && StandsAt(s, p, MessageBytes(d, m)) && |s| < TWO32
    requires Shaped(d, rooms) && |rooms| == |d.fields| && FreshRooms(d, rooms)
    ensures p + |MessageBytes(d, m)| <= |s|
    ensures var r := MessageAt(env, d, s, p, p + |MessageBytes(d, m)|, Start(rooms)); r.Some? && MessageIn(r.value) == m
    decreases d, 5
  {
    hide PlatformOk, FieldsBytes, MessageOk, DescriptorOk, Shaped, FreshRooms, Finished, After, MessageIn;
    MessageShape(d, m);
    NothingYet(d, m, rooms);
    var st := FieldsWritten(env, d, m, |m|, s, p, p + |MessageBytes(d, m)|, Start(rooms));
    AllWritten(d, m, st);
    MessageAtEnd(env, d, s, p + |MessageBytes(d, m)|, st);
  }

  lemma MessageShape(d: Descriptor, m: seq<Slot>)
    requires DescriptorOk(d) && MessageOk(d, m)
    ensures |m| == |d.fields|
  {
  }

  /** Decoding the encoding of a message gives the message, for every descriptor of static fields and
      whatever the memory it is decoded into held before. */
  lemma RoundTrip(env: Platform, d: Descriptor, m: seq<Slot>, memory: seq<Room>)
    requires PlatformOk(env) && DescriptorOk(d) && MessageOk(d, m) && |MessageBytes(d, m)| < TWO32
    requires Shaped(d, memory) && |memory| == |d.fields|
    ensures var r := Decoded(env, d, MessageBytes(d, m), memory); r.Some? && MessageIn(r.value) == m
  {
    hide PlatformOk, MessageBytes, MessageAt, MessageOk, DescriptorOk, Shaped, FreshRooms, Defaults, MessageIn;
    var s := MessageBytes(d, m);
    assert s[0..|s|] == s;
    DefaultsShaped(env, d, memory);
    DefaultsAreFresh(env, d, memory);
    MessageWritten(env, d, m, s, 0, Defaults(env, d, memory));
  }

  /** What was received can be encoded exactly when the items that decoding left alone are in bounds; and
      then encoding it and decoding that, into any memory, gives the same message again. */
  lemma Reencoded(env: Platform, d: Descriptor, s: Bytes, memory: seq<Room>, later: seq<Room>)
    requires PlatformOk(env) && DescriptorOk(d) && Shaped(d, memory) && Shaped(d, later) && |memory| == |later| == |d.fields|
    requires Decoded(env, d, s, memory).Some?
    ensures OnZeros(env, d, s).Some?
    ensures var m := MessageIn(Decoded(env, d, s, memory).value);
            && (MessageOk(d, m) <==> Fits(env, d, OnZeros(env, d, s).value, Defaults(env, d, memory), TraceOf(env, d, s)))
            && (MessageOk(d, m) && |MessageBytes(d, m)| < TWO32 ==>
                  var again := Decoded(env, d, MessageBytes(d, m), later);
                  again.Some? && MessageIn(again.value) == m)
  {
    hide PlatformOk, MessageBytes, MessageOk, DescriptorOk, Shaped, Decoded, Fits, MessageIn, Defaults, OnZeros, TraceOf;
    DecodedInBounds(env, d, s, memory);
    var m := MessageIn(Decoded(env, d, s, memory).value);
    if MessageOk(d, m) && |MessageBytes(d, m)| < TWO32 {
      RoundTrip(env, d, m, later);
    }
  }
}
