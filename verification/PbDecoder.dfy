/** nanopb's decoder as it works through a stream (nanopb/pb_decode.c, nanopb/pb_common.c), proved to
    make of the bytes what PbDecode says. */
module PbDecoder {
  import opened History
  import opened Coding
  import opened Protobuf
  import opened PbMemory
  import opened PbDecode
  import opened PbShapes

  // ---------- input streams ----------

  /** What a read gives, and where it ends. */
  ghost predicate Reads<T>(now: nat, r: Option<T>, spec: Option<(T, nat)>) {
    match spec
    case None => r.None?
    case Some((v, q)) => r == Some(v) && now == q
  }

  class IStream {
    const buffer: Bytes
    var pos: nat
    var bytesLeft: nat

    ghost predicate Valid()
      reads this
    {
      pos + bytesLeft <= |buffer|
    }

    ghost function Limit(): nat
      reads this
    {
      pos + bytesLeft
    }

    /** `pb_istream_from_buffer`. */
    constructor (buffer: Bytes)
      ensures Valid() && this.buffer == buffer && pos == 0 && Limit() == |buffer|
    {
      this.buffer, pos, bytesLeft := buffer, 0, |buffer|;
    }

    constructor Substream(parent: IStream, size: nat)
      requires parent.Valid() && size <= parent.bytesLeft
      ensures Valid() && buffer == parent.buffer && pos == parent.pos && bytesLeft == size
    {
      buffer, pos, bytesLeft := parent.buffer, parent.pos, size;
    }

    /** `pb_read`. */
    method Read(count: nat) returns (r: Option<Bytes>)
      requires Valid()
      modifies this
      ensures Valid() && Limit() == old(Limit())
      ensures Reads(pos, r, if old(pos) + count <= Limit() then Some((buffer[old(pos)..old(pos) + count], old(pos) + count)) else None)
    {
      if bytesLeft < count {
        return None;
      }
      r := Some(buffer[pos..pos + count]);
      pos, bytesLeft := pos + count, bytesLeft - count;
    }

    /** `pb_readbyte`. */
    method ReadByte() returns (r: Option<Byte>)
      requires Valid()
      modifies this
      ensures Valid() && Limit() == old(Limit())
      ensures Reads(pos, r, if old(pos) < Limit() then Some((buffer[old(pos)], old(pos) + 1)) else None)
    {
      if bytesLeft == 0 {
        return None;
      }
      r := Some(buffer[pos]);
      pos, bytesLeft := pos + 1, bytesLeft - 1;
    }

    /** `pb_decode_varint32`. */
    method DecodeVarint32() returns (r: Option<nat>)
      requires Valid()
      modifies this
      ensures Valid() && Limit() == old(Limit())
      ensures Reads(pos, r, Varint32At(buffer, old(pos), Limit()))
    {
      hide Varint32Rest, Joined32;
      var first := ReadByte();
      if first.None? {
        return None;
      }
      if first.value < 128 {
        return Some(first.value);
      }
      r := RestOfVarint32(first.value % 128);
    }

    method RestOfVarint32(digit: nat) returns (r: Option<nat>)
      requires Valid()
      modifies this
      ensures Valid() && Limit() == old(Limit())
      ensures Reads(pos, r, Varint32Rest(buffer, old(pos), Limit(), 7, digit))
    {
      hide Varint32Rest, Joined32;
      var bitpos: nat, result: nat := 7, digit;
      var byte := 128;
      ghost var whole := Varint32Rest(buffer, pos, Limit(), 7, digit);
      while byte >= 128
        invariant Valid() && Limit() == old(Limit()) && 0 <= byte < 256 && bitpos < 256
        invariant whole == if byte >= 128 then Varint32Rest(buffer, pos, Limit(), bitpos, result)
                           else if bitpos == 35 && byte / 16 % 8 != 0 then None
                           else Some((result, pos))
        decreases bytesLeft, byte
      {
        Rest32Step(buffer, pos, Limit(), bitpos, result);
        var next := ReadByte();
        if next.None? {
          return None;
        }
        byte := next.value;
        if bitpos >= 32 {
          var signExtension := if bitpos < 63 then 0xFF else 0x01;
          if byte % 128 != 0 && (result < 0x8000_0000 || byte != signExtension) {
            return None;
          }
        } else {
          result := Joined32(result, byte % 128, bitpos);
        }
        bitpos := (bitpos + 7) % 256;
      }
      if bitpos == 35 && byte / 16 % 8 != 0 {
        return None;
      }
      r := Some(result);
    }

    /** `pb_decode_varint`. */
    method DecodeVarint() returns (r: Option<nat>)
      requires Valid()
      modifies this
      ensures Valid() && Limit() == old(Limit())
      ensures Reads(pos, r, Varint64At(buffer, old(pos), Limit()))
    {
      hide ReadVarint, OnTopOf, Pow128;
      var round: nat, result: nat := 0, 0;
      var byte := 128;
      ghost var total: nat := 0;
      ghost var whole := ReadVarint(buffer, pos, Limit(), 10);
      OnTopOfNothing(whole);
      NoDigits();
      while byte >= 128
        invariant Valid() && Limit() == old(Limit()) && round <= 10 && 0 <= byte < 256
        invariant result == total % TWO64
        invariant whole == if byte >= 128 then OnTopOf(total, Pow128(round), ReadVarint(buffer, pos, Limit(), 10 - round))
                           else Some((total, pos))
        decreases bytesLeft, byte
      {
        LastDigit(total, Pow128(round), buffer, pos, Limit(), 10 - round);
        if round * 7 >= 64 {
          return None;
        }
        if bytesLeft > 0 && buffer[pos] >= 128 {
          NextDigit(total, Pow128(round), buffer, pos, Limit(), 10 - round);
        }
        var next := ReadByte();
        if next.None? {
          return None;
        }
        byte := next.value;
        OneMoreDigit(total, byte, round);
        result := (result + byte % 128 * Pow128(round)) % TWO64;
        total := total + byte % 128 * Pow128(round);
        round := round + 1;
      }
      r := Some(result);
    }
  }

  lemma NoDigits()
    ensures Pow128(0) == 1
  {
  }

  lemma OneMoreDigit(total: nat, byte: Byte, round: nat)
    ensures (total % TWO64 + byte % 128 * Pow128(round)) % TWO64 == (total + byte % 128 * Pow128(round)) % TWO64
    ensures Pow128(round + 1) == 128 * Pow128(round)
    ensures byte >= 128 ==> byte % 128 == byte - 128 && Pow128(round) * (byte - 128) == byte % 128 * Pow128(round)
    ensures byte < 128 ==> byte % 128 == byte && Pow128(round) * byte == byte % 128 * Pow128(round)
  {
    ModOfSum(total, byte % 128 * Pow128(round));
  }

  lemma ModOfSum(a: nat, b: nat)
    ensures (a % TWO64 + b) % TWO64 == (a + b) % TWO64
  {
    assert a + b == TWO64 * (a / TWO64) + (a % TWO64 + b);
  }

  lemma Rest32Step(s: Bytes, p: nat, limit: nat, bitpos: nat, result: nat)
    requires limit <= |s| && bitpos < 256
    ensures p >= limit ==> Varint32Rest(s, p, limit, bitpos, result) == None
    ensures p < limit ==>
              Varint32Rest(s, p, limit, bitpos, result) ==
              if bitpos >= 32 && s[p] % 128 != 0 && (result < 0x8000_0000 || s[p] != if bitpos < 63 then 0xFF else 0x01) then None
              else
                var next := if bitpos >= 32 then result else Joined32(result, s[p] % 128, bitpos);
                if s[p] >= 128 then Varint32Rest(s, p + 1, limit, (bitpos + 7) % 256, next)
                else if bitpos == 28 && s[p] / 16 % 8 != 0 then None
                else Some((next, p + 1))
  {
    hide Joined32;
  }

  // ---------- tags and unknown fields ----------

  /** `pb_decode_tag`. */
  method DecodeTag(s: IStream) returns (r: TagRead)
    requires s.Valid() && s.bytesLeft > 0
    modifies s
    ensures s.Valid() && s.Limit() == old(s.Limit())
    ensures r == TagAt(s.buffer, old(s.pos), s.Limit()) && (r.TagRead? ==> s.pos == r.next)
  {
    hide Varint32At;
    var temp := s.DecodeVarint32();
    if temp.None? {
      return BadTag;
    }
    if temp.value == 0 {
      return EndOfMessage;
    }
    r := TagRead(temp.value / 8, temp.value % 8, s.pos);
  }

  /** A read whose bytes do not matter. */
  ghost predicate Passes(now: nat, ok: bool, spec: Option<nat>) {
    ok == spec.Some? && (ok ==> now == spec.value)
  }

  method SkipVarintBytes(s: IStream) returns (ok: bool)
    requires s.Valid()
    modifies s
    ensures s.Valid() && s.Limit() == old(s.Limit())
    ensures Passes(s.pos, ok, SkipVarint(s.buffer, old(s.pos), s.Limit()))
  {
    ghost var whole := SkipVarint(s.buffer, s.pos, s.Limit());
    var byte := 128;
    while byte >= 128
      invariant s.Valid() && s.Limit() == old(s.Limit()) && 0 <= byte < 256
      invariant whole == if byte >= 128 then SkipVarint(s.buffer, s.pos, s.Limit()) else Some(s.pos)
      decreases s.bytesLeft, byte
    {
      var next := s.ReadByte();
      if next.None? {
        return false;
      }
      byte := next.value;
    }
    ok := true;
  }

  /** `pb_skip_field`. */
  method SkipField(s: IStream, wireType: nat) returns (ok: bool)
    requires s.Valid()
    modifies s
    ensures s.Valid() && s.Limit() == old(s.Limit())
    ensures Passes(s.pos, ok, Skipped(s.buffer, old(s.pos), s.Limit(), wireType))
  {
    hide Varint32At, SkipVarint;
    if wireType == WT_VARINT {
      ok := SkipVarintBytes(s);
    } else if wireType == WT_64BIT {
      var bytes := s.Read(8);
      ok := bytes.Some?;
    } else if wireType == WT_32BIT {
      var bytes := s.Read(4);
      ok := bytes.Some?;
    } else if wireType == WT_STRING {
      var length := s.DecodeVarint32();
      if length.None? {
        return false;
      }
      var bytes := s.Read(length.value);
      ok := bytes.Some?;
    } else {
      ok := false;
    }
  }

  // ---------- scalars ----------

  /** Casting to a signed type and back changes exactly what does not fit. */
  lemma ClampedFits(w: nat, x: int)
    requires IsWidth(w)
    ensures AsSigned(x % (2 * Half(w)), Half(w)) == x <==> 0 <= x + Half(w) < 2 * Half(w)
    ensures x >= 0 ==> (x % (2 * Half(w)) == x <==> x < 2 * Half(w))
  {
    if w == 1 { Clamped8(x); } else if w == 2 { Clamped16(x); } else if w == 4 { Clamped32(x); } else { Clamped64(x); }
  }

  lemma Clamped8(x: int)
    ensures AsSigned(x % 0x100, 0x80) == x <==> -0x80 <= x < 0x80
    ensures x >= 0 ==> (x % 0x100 == x <==> x < 0x100)
  {
  }

  lemma Clamped16(x: int)
    ensures AsSigned(x % 0x1_0000, 0x8000) == x <==> -0x8000 <= x < 0x8000
    ensures x >= 0 ==> (x % 0x1_0000 == x <==> x < 0x1_0000)
  {
  }

  lemma Clamped32(x: int)
    ensures AsSigned(x % 0x1_0000_0000, 0x8000_0000) == x <==> -0x8000_0000 <= x < 0x8000_0000
    ensures x >= 0 ==> (x % 0x1_0000_0000 == x <==> x < 0x1_0000_0000)
  {
  }

  lemma Clamped64(x: int)
    ensures AsSigned(x % 0x1_0000_0000_0000_0000, 0x8000_0000_0000_0000) == x <==> -0x8000_0000_0000_0000 <= x < 0x8000_0000_0000_0000
    ensures x >= 0 ==> (x % 0x1_0000_0000_0000_0000 == x <==> x < 0x1_0000_0000_0000_0000)
  {
  }

  /** The integer and bool decoders. */
  method DecodeScalar(s: IStream, l: LType) returns (r: Option<Datum>)
    requires s.Valid() && TypeOk(l) && Packable(l)
    modifies s
    ensures s.Valid() && s.Limit() == old(s.Limit())
    ensures Reads(s.pos, r, ScalarAt(l, s.buffer, old(s.pos), s.Limit()))
  {
    hide Varint32At, Varint64At, DecodeFixed32, DecodeFixed64;
    match l
    case BoolType =>
      var v := s.DecodeVarint32();
      r := if v.None? then None else Some(BoolValue(v.value != 0));
    case IntType(w) =>
      var v := s.DecodeVarint();
      if v.None? {
        return None;
      }
      var value: int := if w == 8 then AsSigned(v.value, 0x8000_0000_0000_0000) else AsSigned(v.value % TWO32, 0x8000_0000);
      var clamped: int := AsSigned(value % (2 * Half(w)), Half(w));
      ClampedFits(w, value);
      r := if clamped != value then None else Some(IntValue(value));
    case UintType(w) =>
      var v := s.DecodeVarint();
      if v.None? {
        return None;
      }
      var clamped := v.value % (2 * Half(w));
      ClampedFits(w, v.value);
      r := if clamped != v.value then None else Some(IntValue(v.value));
    case SintType(w) =>
      var v := s.DecodeVarint();
      if v.None? {
        return None;
      }
      var value: int := UnZigZag(v.value);
      var clamped: int := AsSigned(value % (2 * Half(w)), Half(w));
      ClampedFits(w, value);
      r := if clamped != value then None else Some(IntValue(value));
    case Fixed32Type =>
      var bytes := s.Read(4);
      if bytes.None? {
        return None;
      }
      Fixed32Slice(s.buffer, old(s.pos));
      r := Some(IntValue(DecodeFixed32(bytes.value)));
    case Fixed64Type =>
      var bytes := s.Read(8);
      if bytes.None? {
        return None;
      }
      Fixed64Slice(s.buffer, old(s.pos));
      r := Some(IntValue(DecodeFixed64(bytes.value)));
  }

  lemma Fixed32Slice(s: Bytes, p: nat)
    requires p + 4 <= |s|
    ensures DecodeFixed32(s[p..p + 4]) == DecodeFixed32(s[p..])
  {
  }

  lemma Fixed64Slice(s: Bytes, p: nat)
    requires p + 8 <= |s|
    ensures DecodeFixed64(s[p..p + 8]) == DecodeFixed64(s[p..])
  {
  }

  // ---------- bytes and strings ----------

  /** `pb_dec_bytes`, `pb_dec_string` and `pb_dec_fixed_length_bytes`. */
  method DecodeBytes(s: IStream, env: Platform, l: LType) returns (r: Option<Place>)
    requires s.Valid() && TypeOk(l) && !Packable(l) && !l.MessageType?
    modifies s
    ensures s.Valid() && s.Limit() == old(s.Limit())
    ensures Reads(s.pos, r, PlaceAt(env, l, s.buffer, old(s.pos), s.Limit(), ZeroPlace(l), false))
  {
    hide Varint32At, UpToZero;
    var size := s.DecodeVarint32();
    if size.None? {
      return None;
    }
    match l
    case BytesType(max) =>
      if size.value > max {
        return None;
      }
      var bytes := s.Read(size.value);
      r := if bytes.None? then None else Some(Leaf(DataValue(bytes.value)));
    case StringType(space) =>
      if size.value + 1 > space {
        return None;
      }
      var bytes := s.Read(size.value);
      r := if bytes.None? then None else Some(Leaf(DataValue(UpToZero(bytes.value))));
    case FixedBytesType(length) =>
      if size.value == 0 {
        return Some(Leaf(ZeroValue(l)));
      }
      if size.value != length {
        return None;
      }
      var bytes := s.Read(length);
      r := if bytes.None? then None else Some(Leaf(DataValue(bytes.value)));
  }

  /** `pb_make_string_substream`. */
  method MakeSubstream(s: IStream) returns (sub: IStream?)
    requires s.Valid()
    modifies s
    ensures s.Valid()
    ensures match Varint32At(s.buffer, old(s.pos), old(s.Limit()))
            case None => sub == null && s.Limit() == old(s.Limit())
            case Some((size, q)) =>
              if q + size > old(s.Limit()) then sub == null && s.Limit() == old(s.Limit())
              else
                && sub != null && fresh(sub) && sub.Valid() && sub.buffer == s.buffer
                && sub.pos == s.pos == q && sub.bytesLeft == size
                && s.bytesLeft == old(s.Limit()) - q - size
  {
    hide Varint32At;
    var size := s.DecodeVarint32();
    if size.None? || s.bytesLeft < size.value {
      return null;
    }
    sub := new IStream.Substream(s, size.value);
    s.bytesLeft := s.bytesLeft - size.value;
  }

  /** `pb_close_string_substream`: what is left of it is passed over. */
  method CloseSubstream(s: IStream, sub: IStream)
    requires sub.Valid() && s != sub && s.buffer == sub.buffer && sub.Limit() + s.bytesLeft <= |s.buffer|
    modifies s, sub
    ensures s.Valid() && s.pos == old(sub.Limit()) && s.bytesLeft == old(s.bytesLeft)
  {
    if sub.bytesLeft > 0 {
      var rest := sub.Read(sub.bytesLeft);
    }
    s.pos := sub.pos;
  }

  // ---------- field iterators ----------

  class FieldIter {
    const d: Descriptor
    var pos: nat
    var requiredFieldIndex: nat

    ghost predicate Valid()
      reads this
    {
      && (pos < |d.fields| || (pos == 0 && d.fields == []))
      && requiredFieldIndex == RequiredBefore(d, pos)
    }

    /** `pb_field_iter_begin`. */
    constructor (d: Descriptor)
      ensures Valid() && this.d == d && pos == 0
    {
      this.d, pos, requiredFieldIndex := d, 0, 0;
    }

    /** `pb_field_iter_next`: after the last field it starts again. */
    method Next() returns (more: bool)
      requires Valid()
      modifies this
      ensures Valid() && more == (old(pos) + 1 < |d.fields|)
      ensures pos == if more then old(pos) + 1 else 0
    {
      if d.fields == [] {
        return false;
      }
      if pos + 1 == |d.fields| {
        pos, requiredFieldIndex := 0, 0;
        return false;
      }
      if d.fields[pos].htype.Required? {
        requiredFieldIndex := requiredFieldIndex + 1;
      }
      pos := pos + 1;
      more := true;
    }

    /** `pb_field_iter_find`: from where the iterator is, around the end, back to where it was. */
    method Find(tag: nat) returns (found: bool)
      requires Valid() && DescriptorOk(d)
      modifies this
      ensures Valid()
      ensures d.fields == [] ==> found == (tag == 0)
      ensures d.fields != [] ==> FindField(d, tag, |d.fields|) == if found then Some(pos) else None
    {
      if d.fields == [] {
        return tag == 0;
      }
      var start := pos;
      var first := true;
      ghost var wrapped := false;
      while first || pos != start
        invariant Valid() && start < |d.fields| && (first ==> pos == start && !wrapped)
        invariant if wrapped then pos <= start else start <= pos
        invariant forall k :: 0 <= k < |d.fields| && (if wrapped then k < pos || k >= start else start <= k < pos) ==> d.fields[k].tag != tag
        invariant !first && pos == start ==> wrapped
        decreases if wrapped then start - pos else 2 * |d.fields| - pos
      {
        if d.fields[pos].tag == tag {
          FoundField(d, pos, |d.fields|);
          return true;
        }
        first := false;
        var more := Next();
        wrapped := wrapped || !more;
      }
      found := false;
    }

    /** The number of required fields, found by going on to the last field. */
    method RequiredFields() returns (count: nat)
      requires Valid()
      modifies this
      ensures Valid() && count == RequiredBefore(d, |d.fields|)
    {
      var last: nat := pos;
      count := requiredFieldIndex;
      var more := Next();
      while more
        invariant Valid() && (if d.fields == [] then last == 0 else last < |d.fields|)
        invariant count == RequiredBefore(d, last)
        invariant if more then pos == last + 1 else pos == 0 && last + 1 >= |d.fields|
        decreases more, |d.fields| - last
      {
        last, count := pos, requiredFieldIndex;
        more := Next();
      }
      if d.fields != [] && d.fields[last].htype.Required? {
        count := count + 1;
      }
    }
  }

  // ---------- fields ----------

  /** The decoder function of a type. A message is decoded into what its place holds, an array item after
      its place has been set to defaults. */
  method DecodePlace(s: IStream, env: Platform, l: LType, current: Place, init: bool) returns (r: Option<Place>)
    requires s.Valid() && PlatformOk(env) && TypeOk(l) && PlaceShaped(l, current)
    modifies s
    ensures s.Valid() && s.Limit() <= old(s.Limit()) && (r.Some? ==> s.Limit() == old(s.Limit()))
    ensures Reads(s.pos, r, PlaceAt(env, l, s.buffer, old(s.pos), old(s.Limit()), current, init))
    decreases l
  {
    hide PlatformOk, ScalarAt, MessageAt, Shaped, Varint32At;
    if Packable(l) {
      var v := DecodeScalar(s, l);
      r := if v.None? then None else Some(Leaf(v.value));
    } else if l.MessageType? {
      r := DecodeSubmessage(s, env, l.d, current, init);
    } else {
      r := DecodeBytes(s, env, l);
      LeafDecoded(env, l, s.buffer, old(s.pos), old(s.Limit()), current, init);
    }
  }

  /** `pb_dec_submessage`. */
  method DecodeSubmessage(s: IStream, env: Platform, d: Descriptor, current: Place, init: bool) returns (r: Option<Place>)
    requires s.Valid() && PlatformOk(env) && DescriptorOk(d) && PlaceShaped(MessageType(d), current)
    modifies s
    ensures s.Valid() && s.Limit() <= old(s.Limit()) && (r.Some? ==> s.Limit() == old(s.Limit()))
    ensures Reads(s.pos, r, PlaceAt(env, MessageType(d), s.buffer, old(s.pos), old(s.Limit()), current, init))
    decreases d, 3
  {
    hide PlatformOk, MessageAt, Shaped, DescriptorOk, Varint32At, StartsWith;
    var sub := MakeSubstream(s);
    if sub == null {
      return None;
    }
    StartShaped(env, d, current, init);
    var rooms := DecodeNoinit(sub, env, d, StartsWith(env, d, current, init));
    CloseSubstream(s, sub);
    r := if rooms.None? then None else Some(Struct(rooms.value));
  }

  function Added(vs: seq<Datum>, rest: Option<seq<Datum>>): Option<seq<Datum>> {
    if rest.None? then None else Some(vs + rest.value)
  }

  lemma PackedUnfolds(l: LType, s: Bytes, p: nat, end: nat, room: nat, vs: seq<Datum>)
    requires p <= end <= |s| && Packable(l)
    ensures p == end ==> Added(vs, PackedItems(l, s, p, end, room)) == Some(vs)
    ensures p < end && room == 0 ==> Added(vs, PackedItems(l, s, p, end, room)) == None
    ensures p < end && room > 0 ==>
              Added(vs, PackedItems(l, s, p, end, room)) ==
              match ScalarAt(l, s, p, end)
              case None => None
              case Some((v, q)) => Added(vs + [v], PackedItems(l, s, q, end, room - 1))
  {
    hide ScalarAt;
    assert vs + [] == vs;
    if p < end && room > 0 && ScalarAt(l, s, p, end).Some? {
      var (v, q) := ScalarAt(l, s, p, end).value;
      if PackedItems(l, s, q, end, room - 1).Some? {
        var rest := PackedItems(l, s, q, end, room - 1).value;
        assert vs + ([v] + rest) == vs + [v] + rest;
      }
    }
  }

  /** The loop of `decode_static_field` over a packed array, on its substream. */
  method DecodePacked(sub: IStream, l: LType, room: nat) returns (r: Option<seq<Datum>>)
    requires sub.Valid() && TypeOk(l) && Packable(l)
    modifies sub
    ensures sub.Valid() && sub.Limit() == old(sub.Limit())
    ensures r == PackedItems(l, sub.buffer, old(sub.pos), sub.Limit(), room)
  {
    hide PackedItems, ScalarAt;
    var vs: seq<Datum> := [];
    var size: nat := 0;
    ghost var whole := PackedItems(l, sub.buffer, sub.pos, sub.Limit(), room);
    AddedNothing(whole);
    while sub.bytesLeft > 0 && size < room
      invariant sub.Valid() && sub.Limit() == old(sub.Limit()) && size == |vs| <= room
      invariant whole == Added(vs, PackedItems(l, sub.buffer, sub.pos, sub.Limit(), room - size))
      decreases room - size
    {
      PackedUnfolds(l, sub.buffer, sub.pos, sub.Limit(), room - size, vs);
      var item := DecodeScalar(sub, l);
      if item.None? {
        return None;
      }
      vs, size := vs + [item.value], size + 1;
    }
    PackedUnfolds(l, sub.buffer, sub.pos, sub.Limit(), room - size, vs);
    r := if sub.bytesLeft != 0 then None else Some(vs);
  }

  lemma AddedNothing(rest: Option<seq<Datum>>)
    ensures Added([], rest) == rest
  {
    if rest.Some? {
      assert [] + rest.value == rest.value;
    }
  }

  /** An array field; a fixed-count array counts its items in the decoder's progress. */
  method DecodeArray(s: IStream, env: Platform, d: Descriptor, i: nat, wireType: nat, st: Progress) returns (r: Option<Progress>)
    requires s.Valid() && PlatformOk(env) && DescriptorOk(d) && ProgressOk(d, st) && i < |d.fields| && |st.rooms| == |d.fields|
    requires d.fields[i].htype.Repeated? || (d.fields[i].htype.FixedCount? && st.fixedField == Some(i))
    modifies s
    ensures s.Valid() && s.Limit() <= old(s.Limit()) && (r.Some? ==> s.Limit() == old(s.Limit()))
    ensures Reads(s.pos, r, FieldAt(env, d, i, wireType, s.buffer, old(s.pos), old(s.Limit()), st))
    decreases d, 0
  {
    hide PlatformOk, DescriptorOk, Shaped, PlaceShaped, ProgressOk, PlaceAt, PackedItems, WithItems, Varint32At;
    var f := d.fields[i];
    ProgressShape(d, st, i);
    var places := PlacesOf(st.rooms[i]);
    var size := CountOf(st, st.rooms[i]);
    if size > |places| {
      return None;
    }
    if wireType == WT_STRING && Packable(f.ltype) {
      var sub := MakeSubstream(s);
      if sub == null {
        return None;
      }
      var more := DecodePacked(sub, f.ltype, |places| - size);
      if more.None? {
        return None;
      }
      CloseSubstream(s, sub);
      return Some(WithItems(st, i, Leaves(more.value)));
    }
    if size >= |places| {
      return None;
    }
    var item := DecodePlace(s, env, f.ltype, places[size], true);
    r := if item.None? then None else Some(WithItems(st, i, [item.value]));
  }

  /** `decode_static_field`. */
  method DecodeField(s: IStream, env: Platform, d: Descriptor, i: nat, wireType: nat, st: Progress) returns (r: Option<Progress>)
    requires s.Valid() && PlatformOk(env) && DescriptorOk(d) && ProgressOk(d, st) && i < |d.fields| && |st.rooms| == |d.fields|
    requires d.fields[i].htype.FixedCount? ==> st.fixedField == Some(i)
    modifies s
    ensures s.Valid() && s.Limit() <= old(s.Limit()) && (r.Some? ==> s.Limit() == old(s.Limit()))
    ensures Reads(s.pos, r, FieldAt(env, d, i, wireType, s.buffer, old(s.pos), old(s.Limit()), st))
    decreases d, 1
  {
    hide PlatformOk, DescriptorOk, Shaped, PlaceShaped, ProgressOk, PlaceAt, PackedAt, WithItems, WithValue;
    var f := d.fields[i];
    ProgressShape(d, st, i);
    if f.htype.Repeated? || f.htype.FixedCount? {
      r := DecodeArray(s, env, d, i, wireType, st);
    } else {
      PayloadShaped(f, st.rooms[i]);
      var value := DecodePlace(s, env, f.ltype, Payload(f, st.rooms[i]), false);
      r := if value.None? then None else Some(st.(rooms := WithValue(d, st.rooms, i, value.value)));
    }
  }

  // ---------- messages ----------

  /** One round of the decoder's loop. */
  lemma MessageUnfolds(env: Platform, d: Descriptor, s: Bytes, p: nat, limit: nat, st: Progress)
    requires p < limit <= |s| && |st.rooms| == |d.fields|
    ensures MessageAt(env, d, s, p, limit, st) ==
            match TagAt(s, p, limit)
            case EndOfMessage => Finished(d, st)
            case BadTag => None
            case TagRead(number, wireType, q) =>
              match FindField(d, number, |d.fields|)
              case None =>
                (match PastUnknown(d, number, wireType, s, q, limit)
                 case None => None
                 case Some(r) => MessageAt(env, d, s, r, limit, st))
              case Some(i) =>
                match Noted(d, i, st)
                case None => None
                case Some(noted) =>
                  match FieldAt(env, d, i, wireType, s, q, limit, noted)
                  case None => None
                  case Some((next, r)) => MessageAt(env, d, s, r, limit, next)
  {
    hide TagAt, FindField, PastUnknown, Noted, FieldAt, Finished;
  }

  /** What `pb_decode_noinit` notes about the field it found. */
  method Note(iter: FieldIter, st: Progress) returns (r: Option<Progress>)
    requires iter.Valid() && iter.pos < |iter.d.fields|
    requires st.fixedField.Some? ==> st.fixedField.value < |iter.d.fields| && iter.d.fields[st.fixedField.value].htype.FixedCount?
    ensures r == Noted(iter.d, iter.pos, st)
  {
    var f := iter.d.fields[iter.pos];
    r := Some(st);
    if f.htype.FixedCount? && st.fixedField != Some(iter.pos) {
      if st.fixedField.Some? && st.fixedSize != iter.d.fields[st.fixedField.value].htype.count {
        return None;
      }
      r := Some(st.(fixedField := Some(iter.pos), fixedSize := 0));
    }
    if f.htype.Required? && iter.requiredFieldIndex < MAX_REQUIRED_FIELDS {
      r := Some(st.(seen := st.seen + {iter.requiredFieldIndex}));
    }
  }

  /** The checks of `pb_decode_noinit` after its loop. */
  method Finish(iter: FieldIter, st: Progress) returns (r: Option<seq<Room>>)
    requires iter.Valid()
    requires st.fixedField.Some? ==> st.fixedField.value < |iter.d.fields| && iter.d.fields[st.fixedField.value].htype.FixedCount?
    modifies iter
    ensures r == Finished(iter.d, st)
  {
    if st.fixedField.Some? && st.fixedSize != iter.d.fields[st.fixedField.value].htype.count {
      return None;
    }
    var count := iter.RequiredFields();
    if count > MAX_REQUIRED_FIELDS {
      count := MAX_REQUIRED_FIELDS;
    }
    for k := 0 to count
      invariant forall j :: 0 <= j < k ==> j in st.seen
    {
      if k !in st.seen {
        return None;
      }
    }
    r := Some(st.rooms);
  }

  lemma ProgressParts(d: Descriptor, st: Progress)
    requires DescriptorOk(d) && ProgressOk(d, st)
    ensures |st.rooms| == |d.fields| && Shaped(d, st.rooms)
    ensures st.fixedField.Some? ==> st.fixedField.value < |d.fields| && d.fields[st.fixedField.value].htype.FixedCount?
  {
  }

  /** Passing over a field that is not in the descriptor. */
  method PassUnknown(s: IStream, d: Descriptor, number: nat, wireType: nat) returns (ok: bool)
    requires s.Valid()
    modifies s
    ensures s.Valid() && s.Limit() == old(s.Limit())
    ensures Passes(s.pos, ok, PastUnknown(d, number, wireType, s.buffer, old(s.pos), s.Limit()))
  {
    hide Varint32At, Skipped;
    if d.fields == [] && number == 0 {
      var value := s.DecodeVarint32();
      return value.Some?;
    }
    ok := SkipField(s, wireType);
  }

  /** `pb_decode_noinit`. */
  method DecodeNoinit(s: IStream, env: Platform, d: Descriptor, rooms: seq<Room>) returns (r: Option<seq<Room>>)
    requires s.Valid() && PlatformOk(env) && DescriptorOk(d) && Shaped(d, rooms) && |rooms| == |d.fields|
    modifies s
    ensures s.Valid() && s.Limit() <= old(s.Limit()) && (r.Some? ==> s.Limit() == old(s.Limit()))
    ensures r == MessageAt(env, d, s.buffer, old(s.pos), old(s.Limit()), Start(rooms))
    decreases d, 2
  {
    hide PlatformOk, DescriptorOk, Shaped, ProgressOk, MessageAt, TagAt, FindField, PastUnknown, Noted, FieldAt, Finished;
    var iter := new FieldIter(d);
    var st := Start(rooms);
    StartOk(d, rooms);
    ghost var whole := MessageAt(env, d, s.buffer, s.pos, s.Limit(), st);
    while s.bytesLeft > 0
      invariant s.Valid() && s.Limit() == old(s.Limit()) && iter.Valid()
      invariant ProgressOk(d, st) && |st.rooms| == |d.fields|
      invariant whole == MessageAt(env, d, s.buffer, s.pos, s.Limit(), st)
      decreases s.bytesLeft
    {
      MessageUnfolds(env, d, s.buffer, s.pos, s.Limit(), st);
      ProgressParts(d, st);
      var tag := DecodeTag(s);
      if tag.EndOfMessage? {
        r := Finish(iter, st);
        return;
      }
      if tag.BadTag? {
        return None;
      }
      var found := iter.Find(tag.number);
      if !found || d.fields == [] {
        EmptyHasNone(d, tag.number);
        var passed := PassUnknown(s, d, tag.number, tag.wireType);
        if !passed {
          return None;
        }
      } else {
        var noted := Note(iter, st);
        if noted.None? {
          return None;
        }
        NotedInBounds(d, iter.pos, st);
        ProgressParts(d, noted.value);
        FieldDecoded(env, d, iter.pos, tag.wireType, s.buffer, s.pos, s.Limit(), noted.value);
        var next := DecodeField(s, env, d, iter.pos, tag.wireType, noted.value);
        if next.None? {
          return None;
        }
        st := next.value;
        ProgressParts(d, st);
      }
    }
    MessageAtEnd(env, d, s.buffer, s.Limit(), st);
    ProgressParts(d, st);
    r := Finish(iter, st);
  }

  lemma EmptyHasNone(d: Descriptor, number: nat)
    requires d.fields == [] || FindField(d, number, |d.fields|).None?
    ensures FindField(d, number, |d.fields|).None?
  {
  }

  lemma StartOk(d: Descriptor, rooms: seq<Room>)
    requires DescriptorOk(d) && Shaped(d, rooms)
    ensures ProgressOk(d, Start(rooms))
  {
  }

  /** `pb_decode` of a whole buffer into a struct with the given memory. */
  method Decode(buffer: Bytes, env: Platform, d: Descriptor, memory: seq<Room>) returns (r: Option<seq<Room>>)
    requires PlatformOk(env) && DescriptorOk(d) && Shaped(d, memory) && |memory| == |d.fields|
    ensures r == Decoded(env, d, buffer, memory)
    ensures r.Some? ==> Shaped(d, r.value)
  {
    hide PlatformOk, DescriptorOk, Shaped, MessageAt, Defaults;
    var s := new IStream(buffer);
    DefaultsShaped(env, d, memory);
    StartOk(d, Defaults(env, d, memory));
    MessageDecoded(env, d, buffer, 0, |buffer|, Start(Defaults(env, d, memory)));
    r := DecodeNoinit(s, env, d, Defaults(env, d, memory));
  }
}
