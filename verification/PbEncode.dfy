/** nanopb's encoder (nanopb/pb_encode.c). */
module PbEncode {
  import opened History
  import opened Coding
  import opened Protobuf

  // ---------- output streams ----------

  /** What has gone through a stream: the bytes before its write position, and its own count. */
  datatype Pen = Pen(state: Bytes, written: nat)

  /** The outcome of encoding the bytes `e`. A sizing stream only counts. A buffer takes them exactly
      when they fit, and is never written past its end. */
  ghost predicate Outcome(sizing: bool, max: nat, a: Pen, b: Pen, ok: bool, e: Bytes) {
    if sizing then ok && b == Pen(a.state, a.written + |e|)
    else
      && (ok <==> a.written + |e| <= max)
      && (if ok then b == Pen(a.state + e, a.written + |e|)
          else a.state <= b.state && a.written + (|b.state| - |a.state|) <= max)
  }

  lemma OutcomeThen(sizing: bool, max: nat, a: Pen, b: Pen, c: Pen, ok: bool, e: Bytes, f: Bytes)
    requires Outcome(sizing, max, a, b, true, e) && Outcome(sizing, max, b, c, ok, f)
    ensures Outcome(sizing, max, a, c, ok, e + f)
  {
    assert a.state + e + f == a.state + (e + f);
  }

  lemma OutcomeFails(sizing: bool, max: nat, a: Pen, b: Pen, e: Bytes, f: Bytes)
    requires Outcome(sizing, max, a, b, false, e)
    ensures Outcome(sizing, max, a, b, false, e + f)
  {
  }

  lemma OutcomeFailsEarly(sizing: bool, max: nat, a: Pen, b: Pen, e: Bytes, whole: Bytes)
    requires Outcome(sizing, max, a, b, false, e) && e <= whole
    ensures Outcome(sizing, max, a, b, false, whole)
  {
  }

  lemma OutcomeNothing(sizing: bool, max: nat, a: Pen)
    requires !sizing ==> a.written <= max
    ensures Outcome(sizing, max, a, a, true, [])
  {
    assert a.state + [] == a.state;
  }

  class OStream {
    const sizing: bool
    const maxSize: nat
    var state: Bytes
    var bytesWritten: nat

    ghost predicate Valid()
      reads this
    {
      !sizing ==> bytesWritten <= maxSize
    }

    ghost function Now(): Pen
      reads this
    {
      Pen(state, bytesWritten)
    }

    constructor (sizing: bool, maxSize: nat, state: Bytes)
      ensures Valid() && this.sizing == sizing && this.maxSize == maxSize && Now() == Pen(state, 0)
    {
      this.sizing, this.maxSize, this.state, bytesWritten := sizing, maxSize, state, 0;
    }

    /** `pb_write`. */
    method Write(buf: Bytes) returns (ok: bool)
      requires Valid()
      modifies this
      ensures Outcome(sizing, maxSize, old(Now()), Now(), ok, buf) && (ok ==> Valid())
    {
      if |buf| > 0 && !sizing {
        if bytesWritten + |buf| > maxSize {
          return false;
        }
        state := state + buf;
      }
      assert state + [] == state;
      bytesWritten := bytesWritten + |buf|;
      ok := true;
    }

    /** `pb_write` of a count of bytes, on a stream that only counts. */
    method Skip(count: nat)
      requires Valid() && sizing
      modifies this`bytesWritten
      ensures Valid() && Now() == Pen(old(state), old(bytesWritten) + count)
    {
      bytesWritten := bytesWritten + count;
    }

    /** `pb_encode_varint`. */
    method EncodeVarint(value: nat) returns (ok: bool)
      requires Valid()
      modifies this
      ensures Outcome(sizing, maxSize, old(Now()), Now(), ok, Varint(value)) && (ok ==> Valid())
    {
      if value <= 0x7F {
        ok := Write([value]);
        return;
      }
      var buffer := VarintBuffer(value);
      ok := Write(buffer);
    }

    method EncodeTag(wireType: nat, number: nat) returns (ok: bool)
      requires Valid()
      modifies this
      ensures Outcome(sizing, maxSize, old(Now()), Now(), ok, WireTag(wireType, number)) && (ok ==> Valid())
    {
      ok := EncodeVarint(number * 8 + wireType);
    }

    /** `pb_encode_string`. */
    method EncodeString(bytes: Bytes) returns (ok: bool)
      requires Valid()
      modifies this
      ensures Outcome(sizing, maxSize, old(Now()), Now(), ok, LengthPrefixed(bytes)) && (ok ==> Valid())
    {
      hide Varint, Outcome;
      ok := EncodeVarint(|bytes|);
      if !ok {
        OutcomeFails(sizing, maxSize, old(Now()), Now(), Varint(|bytes|), bytes);
        return;
      }
      ghost var middle := Now();
      ok := Write(bytes);
      OutcomeThen(sizing, maxSize, old(Now()), middle, Now(), ok, Varint(|bytes|), bytes);
    }
  }

  /** All bytes get the top bit, and the last one loses it again. */
  method VarintBuffer(value: nat) returns (buffer: Bytes)
    requires value > 0
    ensures buffer == Varint(value)
  {
    buffer := [];
    var rest: nat := value;
    while rest > 0
      invariant rest == 0 ==> buffer != []
      invariant if rest > 0 then buffer + Varint(rest) == Varint(value) else WithoutTopBit(buffer) == Varint(value)
    {
      VarintStep(buffer, rest);
      buffer := buffer + [rest % 128 + 128];
      rest := rest / 128;
    }
    buffer := WithoutTopBit(buffer);
  }

  function WithoutTopBit(buffer: Bytes): Bytes
    requires buffer != []
  {
    buffer[|buffer| - 1 := buffer[|buffer| - 1] % 128]
  }

  lemma VarintStep(buffer: Bytes, rest: nat)
    requires rest > 0
    ensures rest >= 128 ==> buffer + Varint(rest) == buffer + [rest % 128 + 128] + Varint(rest / 128)
    ensures rest < 128 ==> rest / 128 == 0 && WithoutTopBit(buffer + [rest % 128 + 128]) == buffer + Varint(rest)
  {
    if rest >= 128 {
      Associate(buffer, [rest % 128 + 128], Varint(rest / 128));
    } else {
      SmallNumber(rest);
      LastByte(buffer, rest);
    }
  }

  lemma Associate(a: Bytes, b: Bytes, c: Bytes)
    ensures a + (b + c) == a + b + c
  {
  }

  lemma SmallNumber(n: nat)
    requires n < 128
    ensures n / 128 == 0 && n % 128 == n
  {
  }

  lemma LastByte(buffer: Bytes, b: Byte)
    requires b < 128
    ensures WithoutTopBit(buffer + [(b as int) + 128]) == buffer + [b]
  {
    assert ((b as int) + 128) % 128 == b as int;
  }

  // ---------- one item ----------

  method EncodeScalar(s: OStream, l: LType, v: Datum) returns (ok: bool)
    requires s.Valid() && TypeOk(l) && Packable(l) && ValueOk(l, v)
    modifies s
    ensures Outcome(s.sizing, s.maxSize, old(s.Now()), s.Now(), ok, ScalarBytes(l, v)) && (ok ==> s.Valid())
  {
    hide Outcome, Varint;
    match l
    case BoolType => ok := s.EncodeVarint(if v.b then 1 else 0);
    case IntType(_) => ok := s.EncodeVarint(AsUnsigned(v.i));
    case UintType(_) => ok := s.EncodeVarint(v.i);
    case SintType(_) => ok := s.EncodeVarint(ZigZag(v.i));
    case Fixed32Type => ok := s.Write(EncodeFixed32(v.i));
    case Fixed64Type => ok := s.Write(EncodeFixed64(v.i));
  }

  /** The encoder function of a type. */
  method EncodeDatum(s: OStream, l: LType, v: Datum) returns (ok: bool)
    requires s.Valid() && TypeOk(l) && ValueOk(l, v)
    modifies s
    ensures Outcome(s.sizing, s.maxSize, old(s.Now()), s.Now(), ok, ValueBytes(l, v)) && (ok ==> s.Valid())
    decreases l
  {
    hide Outcome;
    if Packable(l) {
      ok := EncodeScalar(s, l, v);
    } else if l.MessageType? {
      ok := EncodeSubmessage(s, l.d, v.slots);
    } else {
      ok := s.EncodeString(v.bytes);
    }
  }

  /** `pb_encode_submessage`: a sizing pass, the length, then the real pass into what is reserved. */
  method EncodeSubmessage(s: OStream, d: Descriptor, slots: seq<Slot>) returns (ok: bool)
    requires s.Valid() && DescriptorOk(d) && MessageOk(d, slots)
    modifies s
    ensures Outcome(s.sizing, s.maxSize, old(s.Now()), s.Now(), ok, LengthPrefixed(MessageBytes(d, slots))) && (ok ==> s.Valid())
    decreases d, 1
  {
    hide MessageOk, DescriptorOk, MessageBytes, Varint;
    ghost var e := MessageBytes(d, slots);
    var sizes := new OStream(true, 0, []);
    var counted := Encode(sizes, d, slots);
    var size := sizes.bytesWritten;
    ok := s.EncodeVarint(size);
    if !ok {
      OutcomeFails(s.sizing, s.maxSize, old(s.Now()), s.Now(), Varint(|e|), e);
      return;
    }
    ghost var middle := s.Now();
    if s.sizing {
      s.Skip(size);
      OutcomeThen(true, s.maxSize, old(s.Now()), middle, s.Now(), true, Varint(|e|), e);
      return;
    }
    if s.bytesWritten + size > s.maxSize {
      return false;
    }
    var sub := new OStream(false, size, s.state);
    ok := Encode(sub, d, slots);
    s.bytesWritten := s.bytesWritten + sub.bytesWritten;
    s.state := sub.state;
    if sub.bytesWritten != size {
      // never: the size cannot change between the two passes
      assert false;
    }
    OutcomeThen(false, s.maxSize, old(s.Now()), middle, s.Now(), ok, Varint(|e|), e);
  }

  method EncodeTagged(s: OStream, f: Field, v: Datum) returns (ok: bool)
    requires s.Valid() && TypeOk(f.ltype) && ValueOk(f.ltype, v)
    modifies s
    ensures Outcome(s.sizing, s.maxSize, old(s.Now()), s.Now(), ok, TaggedBytes(f, v)) && (ok ==> s.Valid())
    decreases f, 0
  {
    hide Outcome, ValueBytes, WireTag, ValueOk;
    ok := s.EncodeTag(WireType(f.ltype), f.tag);
    ghost var tag, e := WireTag(WireType(f.ltype), f.tag), ValueBytes(f.ltype, v);
    if !ok {
      OutcomeFails(s.sizing, s.maxSize, old(s.Now()), s.Now(), tag, e);
      return;
    }
    ghost var middle := s.Now();
    ok := EncodeDatum(s, f.ltype, v);
    OutcomeThen(s.sizing, s.maxSize, old(s.Now()), middle, s.Now(), ok, tag, e);
  }

  // ---------- arrays ----------

  lemma {:induction false} PackedPrefix(l: LType, vs: seq<Datum>, k: nat)
    requires TypeOk(l) && Packable(l) && ValuesOk(l, vs) && k <= |vs|
    ensures PackedBytes(l, vs[..k]) <= PackedBytes(l, vs)
    decreases |vs|
  {
    hide ScalarBytes, ValueOk;
    if k < |vs| {
      PackedPrefix(l, vs[..|vs| - 1], k);
      assert vs[..|vs| - 1][..k] == vs[..k];
    } else {
      assert vs[..k] == vs;
    }
  }

  lemma {:induction false} ItemsPrefix(f: Field, vs: seq<Datum>, k: nat)
    requires TypeOk(f.ltype) && ValuesOk(f.ltype, vs) && k <= |vs|
    ensures ItemsBytes(f, vs[..k]) <= ItemsBytes(f, vs)
    decreases |vs|
  {
    hide TaggedBytes, ValueOk;
    if k < |vs| {
      ItemsPrefix(f, vs[..|vs| - 1], k);
      assert vs[..|vs| - 1][..k] == vs[..k];
    } else {
      assert vs[..k] == vs;
    }
  }

  lemma {:induction false} FixedPackedLength(l: LType, vs: seq<Datum>)
    requires TypeOk(l) && (l.Fixed32Type? || l.Fixed64Type?) && ValuesOk(l, vs)
    ensures |PackedBytes(l, vs)| == (if l.Fixed32Type? then 4 else 8) * |vs|
    decreases |vs|
  {
    if vs != [] {
      FixedPackedLength(l, vs[..|vs| - 1]);
    }
  }

  /** The items of a packed array, one after another. */
  method EncodeItems(s: OStream, l: LType, vs: seq<Datum>) returns (ok: bool)
    requires s.Valid() && TypeOk(l) && Packable(l) && ValuesOk(l, vs)
    modifies s
    ensures Outcome(s.sizing, s.maxSize, old(s.Now()), s.Now(), ok, PackedBytes(l, vs)) && (ok ==> s.Valid())
  {
    hide Outcome, ScalarBytes, ValueOk;
    OutcomeNothing(s.sizing, s.maxSize, s.Now());
    for i := 0 to |vs|
      invariant s.Valid() && Outcome(s.sizing, s.maxSize, old(s.Now()), s.Now(), true, PackedBytes(l, vs[..i]))
    {
      assert vs[..i + 1][..i] == vs[..i];
      ghost var middle := s.Now();
      ok := EncodeScalar(s, l, vs[i]);
      OutcomeThen(s.sizing, s.maxSize, old(s.Now()), middle, s.Now(), ok, PackedBytes(l, vs[..i]), ScalarBytes(l, vs[i]));
      if !ok {
        PackedPrefix(l, vs, i + 1);
        OutcomeFailsEarly(s.sizing, s.maxSize, old(s.Now()), s.Now(), PackedBytes(l, vs[..i + 1]), PackedBytes(l, vs));
        return;
      }
    }
    assert vs[..|vs|] == vs;
    ok := true;
  }

  method PackedSize(l: LType, vs: seq<Datum>) returns (size: nat)
    requires TypeOk(l) && Packable(l) && ValuesOk(l, vs)
    ensures size == |PackedBytes(l, vs)|
  {
    if l.Fixed32Type? {
      FixedPackedLength(l, vs);
      size := 4 * |vs|;
    } else if l.Fixed64Type? {
      FixedPackedLength(l, vs);
      size := 8 * |vs|;
    } else {
      var sizes := new OStream(true, 0, []);
      var ok := EncodeItems(sizes, l, vs);
      size := sizes.bytesWritten;
    }
  }

  /** `encode_array`: packed whenever the type allows it. */
  method EncodeArray(s: OStream, f: Field, vs: seq<Datum>) returns (ok: bool)
    requires s.Valid() && TypeOk(f.ltype) && ValuesOk(f.ltype, vs)
    modifies s
    ensures Outcome(s.sizing, s.maxSize, old(s.Now()), s.Now(), ok, ArrayBytes(f, vs)) && (ok ==> s.Valid())
    decreases f, 2
  {
    hide Outcome, ItemsBytes, PackedBytes, ValueOk;
    if vs == [] {
      OutcomeNothing(s.sizing, s.maxSize, s.Now());
      return true;
    }
    if Packable(f.ltype) {
      ok := EncodePacked(s, f, vs);
    } else {
      ok := EncodeEach(s, f, vs);
    }
  }

  method EncodePacked(s: OStream, f: Field, vs: seq<Datum>) returns (ok: bool)
    requires s.Valid() && TypeOk(f.ltype) && Packable(f.ltype) && ValuesOk(f.ltype, vs)
    modifies s
    ensures Outcome(s.sizing, s.maxSize, old(s.Now()), s.Now(), ok, WireTag(WT_STRING, f.tag) + LengthPrefixed(PackedBytes(f.ltype, vs)))
    ensures ok ==> s.Valid()
  {
    hide Outcome, PackedBytes, ValueOk, Varint, WireTag;
    ghost var tag, e := WireTag(WT_STRING, f.tag), PackedBytes(f.ltype, vs);
    ok := s.EncodeTag(WT_STRING, f.tag);
    if !ok {
      OutcomeFails(s.sizing, s.maxSize, old(s.Now()), s.Now(), tag, LengthPrefixed(e));
      return;
    }
    ghost var a := s.Now();
    var size := PackedSize(f.ltype, vs);
    ok := s.EncodeVarint(size);
    OutcomeThen(s.sizing, s.maxSize, old(s.Now()), a, s.Now(), ok, tag, Varint(size));
    assert tag + LengthPrefixed(e) == tag + Varint(size) + e;
    if !ok {
      OutcomeFails(s.sizing, s.maxSize, old(s.Now()), s.Now(), tag + Varint(size), e);
      return;
    }
    ghost var b := s.Now();
    ok := EncodePackedData(s, f.ltype, vs, size);
    OutcomeThen(s.sizing, s.maxSize, old(s.Now()), b, s.Now(), ok, tag + Varint(size), e);
  }

  /** A stream that only counts is told the size at once. */
  method EncodePackedData(s: OStream, l: LType, vs: seq<Datum>, size: nat) returns (ok: bool)
    requires s.Valid() && TypeOk(l) && Packable(l) && ValuesOk(l, vs) && size == |PackedBytes(l, vs)|
    modifies s
    ensures Outcome(s.sizing, s.maxSize, old(s.Now()), s.Now(), ok, PackedBytes(l, vs)) && (ok ==> s.Valid())
  {
    if s.sizing {
      s.Skip(size);
      return true;
    }
    ok := EncodeItems(s, l, vs);
  }

  method EncodeEach(s: OStream, f: Field, vs: seq<Datum>) returns (ok: bool)
    requires s.Valid() && TypeOk(f.ltype) && ValuesOk(f.ltype, vs)
    modifies s
    ensures Outcome(s.sizing, s.maxSize, old(s.Now()), s.Now(), ok, ItemsBytes(f, vs)) && (ok ==> s.Valid())
    decreases f, 1
  {
    hide Outcome, TaggedBytes, ValueOk;
    OutcomeNothing(s.sizing, s.maxSize, s.Now());
    for i := 0 to |vs|
      invariant s.Valid() && Outcome(s.sizing, s.maxSize, old(s.Now()), s.Now(), true, ItemsBytes(f, vs[..i]))
    {
      assert vs[..i + 1][..i] == vs[..i];
      ghost var middle := s.Now();
      ok := EncodeTagged(s, f, vs[i]);
      OutcomeThen(s.sizing, s.maxSize, old(s.Now()), middle, s.Now(), ok, ItemsBytes(f, vs[..i]), TaggedBytes(f, vs[i]));
      if !ok {
        ItemsPrefix(f, vs, i + 1);
        OutcomeFailsEarly(s.sizing, s.maxSize, old(s.Now()), s.Now(), ItemsBytes(f, vs[..i + 1]), ItemsBytes(f, vs));
        return;
      }
    }
    assert vs[..|vs|] == vs;
    ok := true;
  }

  // ---------- fields and messages ----------

  /** `pb_check_proto3_default_value`, for a value without a has-field. */
  method CheckProto3Default(l: LType, v: Datum) returns (b: bool)
    requires TypeOk(l) && ValueOk(l, v)
    ensures b == IsDefault(l, v)
    decreases l
  {
    match l
    case BoolType => b := !v.b;
    case BytesType(_) => b := v.bytes == [];
    case StringType(_) => b := v.bytes == [];
    case FixedBytesType(size) => b := size == 0;
    case MessageType(d) => b := CheckMessageDefault(d, v.slots);
    case _ => b := v.i == 0;
  }

  method CheckMessageDefault(d: Descriptor, slots: seq<Slot>) returns (b: bool)
    requires DescriptorOk(d) && MessageOk(d, slots)
    ensures b == IsDefaultMessage(d, slots)
    decreases d
  {
    for i := 0 to |slots|
      invariant forall k :: 0 <= k < i ==> IsDefaultSlot(d.fields[k], slots[k])
    {
      var f, slot := d.fields[i], slots[i];
      var isDefault := false;
      match f.htype {
        case Required => isDefault := false;
        case FixedCount(_) => isDefault := false;
        case Repeated(_) => isDefault := slot.values == [];
        case Proto3 => isDefault := CheckProto3Default(f.ltype, slot.value);
        case _ => isDefault := slot.option.None?;
      }
      if !isDefault {
        return false;
      }
    }
    b := true;
  }

  /** `encode_basic_field`. */
  method EncodeField(s: OStream, f: Field, slot: Slot) returns (ok: bool)
    requires s.Valid() && TypeOk(f.ltype) && SlotOk(f, slot)
    modifies s
    ensures Outcome(s.sizing, s.maxSize, old(s.Now()), s.Now(), ok, FieldBytes(f, slot)) && (ok ==> s.Valid())
    decreases f, 3
  {
    hide Outcome, TaggedBytes, ArrayBytes, ValueOk, IsDefault;
    OutcomeNothing(s.sizing, s.maxSize, s.Now());
    ok := true;
    match f.htype
    case Required => ok := EncodeTagged(s, f, slot.value);
    case Proto3 =>
      var isDefault := CheckProto3Default(f.ltype, slot.value);
      if !isDefault {
        ok := EncodeTagged(s, f, slot.value);
      }
    case Repeated(_) => ok := EncodeArray(s, f, slot.values);
    case FixedCount(_) => ok := EncodeArray(s, f, slot.values);
    case _ =>
      if slot.option.Some? {
        ok := EncodeTagged(s, f, slot.option.value);
      }
  }

  lemma {:induction false} FieldsPrefix(d: Descriptor, slots: seq<Slot>, n: nat, m: nat)
    requires DescriptorOk(d) && MessageOk(d, slots) && n <= m <= |slots|
    ensures FieldsBytes(d, slots, n) <= FieldsBytes(d, slots, m)
    decreases m
  {
    hide FieldBytes, MessageOk, DescriptorOk;
    if n < m {
      FieldsPrefix(d, slots, n, m - 1);
    }
  }

  /** `pb_encode`. */
  method Encode(s: OStream, d: Descriptor, slots: seq<Slot>) returns (ok: bool)
    requires s.Valid() && DescriptorOk(d) && MessageOk(d, slots)
    modifies s
    ensures Outcome(s.sizing, s.maxSize, old(s.Now()), s.Now(), ok, MessageBytes(d, slots)) && (ok ==> s.Valid())
    decreases d, 0
  {
    hide Outcome, FieldBytes;
    OutcomeNothing(s.sizing, s.maxSize, s.Now());
    for i := 0 to |slots|
      invariant s.Valid() && Outcome(s.sizing, s.maxSize, old(s.Now()), s.Now(), true, FieldsBytes(d, slots, i))
    {
      ghost var middle := s.Now();
      ok := EncodeField(s, d.fields[i], slots[i]);
      OutcomeThen(s.sizing, s.maxSize, old(s.Now()), middle, s.Now(), ok, FieldsBytes(d, slots, i), FieldBytes(d.fields[i], slots[i]));
      if !ok {
        FieldsPrefix(d, slots, i + 1, |slots|);
        OutcomeFailsEarly(s.sizing, s.maxSize, old(s.Now()), s.Now(), FieldsBytes(d, slots, i + 1), MessageBytes(d, slots));
        return;
      }
    }
    ok := true;
  }

  /** `pb_get_encoded_size`. */
  method GetEncodedSize(d: Descriptor, slots: seq<Slot>) returns (size: nat)
    requires DescriptorOk(d) && MessageOk(d, slots)
    ensures size == |MessageBytes(d, slots)|
  {
    var s := new OStream(true, 0, []);
    var ok := Encode(s, d, slots);
    size := s.bytesWritten;
  }

  /** Encoding into a buffer succeeds exactly when the buffer has at least the encoded size. */
  method EncodeToBuffer(d: Descriptor, slots: seq<Slot>, bufsize: nat) returns (ok: bool, bytes: Bytes)
    requires DescriptorOk(d) && MessageOk(d, slots)
    ensures ok <==> |MessageBytes(d, slots)| <= bufsize
    ensures ok ==> bytes == MessageBytes(d, slots)
    ensures |bytes| <= bufsize
  {
    var s := new OStream(false, bufsize, []);
    ok := Encode(s, d, slots);
    assert [] + MessageBytes(d, slots) == MessageBytes(d, slots);
    bytes := s.state;
  }
}
