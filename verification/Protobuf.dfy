/** nanopb's messages: descriptors, the values a message struct can hold, and the bytes they stand for
    in the Protocol Buffers wire format (nanopb/pb.h, nanopb/pb_encode.c). */
module Protobuf {
  import opened History
  import opened Coding

  // ---------- descriptors ----------

  /** What one item of a field is. Integers carry the size of their C type in bytes; bytes and strings
      the space set aside for them. */
  datatype LType =
    | BoolType
    | IntType(width: nat)
    | UintType(width: nat)
    | SintType(width: nat)
    | Fixed32Type
    | Fixed64Type
    | BytesType(max: nat)
    | StringType(space: nat)
    | FixedBytesType(size: nat)
    | MessageType(d: Descriptor)

  /** How often it occurs: `Proto3` is optional without a has-field, `FixedCount` repeated without a
      count, and the members of one union share its number. */
  datatype HType = Required | Optional | Proto3 | Repeated(max: nat) | FixedCount(count: nat) | OneOf(union: nat)

  datatype Field = Field(tag: nat, htype: HType, ltype: LType)
  datatype Descriptor = Descriptor(fields: seq<Field>)

  predicate Packable(l: LType) {
    l.BoolType? || l.IntType? || l.UintType? || l.SintType? || l.Fixed32Type? || l.Fixed64Type?
  }

  predicate IsWidth(w: nat) {
    w == 1 || w == 2 || w == 4 || w == 8
  }

  ghost predicate TypeOk(l: LType) {
    match l
    case IntType(w) => IsWidth(w)
    case UintType(w) => IsWidth(w)
    case SintType(w) => IsWidth(w)
    case StringType(space) => space > 0
    case MessageType(d) => DescriptorOk(d)
    case _ => true
  }

  /** Tags are distinct and fit in 29 bits. */
  ghost predicate DescriptorOk(d: Descriptor) {
    && (forall i :: 0 <= i < |d.fields| ==> 0 < d.fields[i].tag < 0x2000_0000 && TypeOk(d.fields[i].ltype))
    && (forall i, j :: 0 <= i < j < |d.fields| ==> d.fields[i].tag != d.fields[j].tag)
  }

  // ---------- messages ----------

  datatype Datum = BoolValue(b: bool) | IntValue(i: int) | DataValue(bytes: Bytes) | MessageValue(slots: seq<Slot>)

  /** What a message holds for one field. The payload of an absent field is not part of it. */
  datatype Slot = One(value: Datum) | Maybe(option: Option<Datum>) | Many(values: seq<Datum>)

  /** Half of the number of values of an integer type. */
  function Half(w: nat): nat
    requires IsWidth(w)
  {
    if w == 1 then 0x80 else if w == 2 then 0x8000 else if w == 4 then 0x8000_0000 else 0x8000_0000_0000_0000
  }

  predicate InRange(l: LType, i: int)
    requires Packable(l) && (l.IntType? || l.UintType? || l.SintType? ==> IsWidth(l.width))
  {
    match l
    case BoolType => true
    case IntType(w) => 0 <= i + Half(w) < 2 * Half(w)
    case UintType(w) => 0 <= i < 2 * Half(w)
    case SintType(w) => 0 <= i + Half(w) < 2 * Half(w)
    case Fixed32Type => 0 <= i < 0x1_0000_0000
    case Fixed64Type => 0 <= i < 0x1_0000_0000_0000_0000
  }

  /** The value fits the field's C type; a string ends within its space. */
  ghost predicate ValueOk(l: LType, v: Datum)
    requires TypeOk(l)
    decreases l
  {
    match l
    case BoolType => v.BoolValue?
    case BytesType(max) => v.DataValue? && |v.bytes| <= max
    case StringType(space) => v.DataValue? && |v.bytes| + 1 <= space && forall k :: 0 <= k < |v.bytes| ==> v.bytes[k] != 0
    case FixedBytesType(size) => v.DataValue? && |v.bytes| == size
    case MessageType(d) => v.MessageValue? && MessageOk(d, v.slots)
    case _ => v.IntValue? && InRange(l, v.i)
  }

  ghost predicate SlotOk(f: Field, s: Slot)
    requires TypeOk(f.ltype)
    decreases f
  {
    match f.htype
    case Required => s.One? && ValueOk(f.ltype, s.value)
    case Proto3 => s.One? && ValueOk(f.ltype, s.value)
    case Optional => s.Maybe? && (s.option.Some? ==> ValueOk(f.ltype, s.option.value))
    case OneOf(_) => s.Maybe? && (s.option.Some? ==> ValueOk(f.ltype, s.option.value))
    case Repeated(max) => s.Many? && |s.values| <= max && forall k :: 0 <= k < |s.values| ==> ValueOk(f.ltype, s.values[k])
    case FixedCount(count) => s.Many? && |s.values| == count && forall k :: 0 <= k < |s.values| ==> ValueOk(f.ltype, s.values[k])
  }

  /** At most one member of a union is present. */
  ghost predicate MessageOk(d: Descriptor, slots: seq<Slot>)
    requires DescriptorOk(d)
    decreases d
  {
    && |slots| == |d.fields|
    && (forall i :: 0 <= i < |slots| ==> SlotOk(d.fields[i], slots[i]))
    && forall i, j :: 0 <= i < j < |slots| && d.fields[i].htype.OneOf? && d.fields[i].htype == d.fields[j].htype ==>
         slots[i].option.None? || slots[j].option.None?
  }

  // ---------- the wire format ----------

  const WT_VARINT := 0
  const WT_64BIT := 1
  const WT_STRING := 2
  const WT_32BIT := 5

  function WireType(l: LType): nat {
    match l
    case BoolType => WT_VARINT
    case IntType(_) => WT_VARINT
    case UintType(_) => WT_VARINT
    case SintType(_) => WT_VARINT
    case Fixed32Type => WT_32BIT
    case Fixed64Type => WT_64BIT
    case _ => WT_STRING
  }

  function WireTag(wireType: nat, number: nat): Bytes {
    Varint(number * 8 + wireType)
  }

  const TWO64 := 0x1_0000_0000_0000_0000

  /** The cast of a signed to an unsigned 64-bit integer. */
  function AsUnsigned(i: int): int {
    if i < 0 then i + TWO64 else i
  }

  function ZigZag(i: int): int {
    if i < 0 then -2 * i - 1 else 2 * i
  }

  function ScalarBytes(l: LType, v: Datum): Bytes
    requires Packable(l) && TypeOk(l) && ValueOk(l, v)
  {
    match l
    case BoolType => Varint(if v.b then 1 else 0)
    case IntType(_) => Varint(AsUnsigned(v.i))
    case UintType(_) => Varint(v.i)
    case SintType(_) => Varint(ZigZag(v.i))
    case Fixed32Type => EncodeFixed32(v.i)
    case Fixed64Type => EncodeFixed64(v.i)
  }

  /** Whether nanopb takes a field without a has-field for absent. */
  ghost predicate IsDefault(l: LType, v: Datum)
    requires TypeOk(l) && ValueOk(l, v)
    decreases l
  {
    match l
    case BoolType => !v.b
    case BytesType(_) => v.bytes == []
    case StringType(_) => v.bytes == []
    case FixedBytesType(size) => size == 0
    case MessageType(d) => IsDefaultMessage(d, v.slots)
    case _ => v.i == 0
  }

  ghost predicate IsDefaultMessage(d: Descriptor, slots: seq<Slot>)
    requires DescriptorOk(d) && MessageOk(d, slots)
    decreases d
  {
    forall i :: 0 <= i < |slots| ==> IsDefaultSlot(d.fields[i], slots[i])
  }

  ghost predicate IsDefaultSlot(f: Field, s: Slot)
    requires TypeOk(f.ltype) && SlotOk(f, s)
    decreases f
  {
    match f.htype
    case Required => false
    case FixedCount(_) => false
    case Repeated(_) => s.values == []
    case Proto3 => IsDefault(f.ltype, s.value)
    case _ => s.option.None?
  }

  // ---------- encoding ----------

  ghost function ValueBytes(l: LType, v: Datum): Bytes
    requires TypeOk(l) && ValueOk(l, v)
    decreases l
  {
    if Packable(l) then ScalarBytes(l, v)
    else if l.MessageType? then LengthPrefixed(MessageBytes(l.d, v.slots))
    else LengthPrefixed(v.bytes)
  }

  ghost function TaggedBytes(f: Field, v: Datum): Bytes
    requires TypeOk(f.ltype) && ValueOk(f.ltype, v)
    decreases f, 0
  {
    WireTag(WireType(f.ltype), f.tag) + ValueBytes(f.ltype, v)
  }

  ghost predicate ValuesOk(l: LType, vs: seq<Datum>)
    requires TypeOk(l)
  {
    forall k :: 0 <= k < |vs| ==> ValueOk(l, vs[k])
  }

  /** The items of a packed array. */
  ghost function PackedBytes(l: LType, vs: seq<Datum>): Bytes
    requires TypeOk(l) && Packable(l) && ValuesOk(l, vs)
  {
    if vs == [] then [] else PackedBytes(l, vs[..|vs| - 1]) + ScalarBytes(l, vs[|vs| - 1])
  }

  /** The items of an array that is not packed, each with its tag. */
  ghost function ItemsBytes(f: Field, vs: seq<Datum>): Bytes
    requires TypeOk(f.ltype) && ValuesOk(f.ltype, vs)
    decreases f, 1, |vs|
  {
    if vs == [] then [] else ItemsBytes(f, vs[..|vs| - 1]) + TaggedBytes(f, vs[|vs| - 1])
  }

  ghost function ArrayBytes(f: Field, vs: seq<Datum>): Bytes
    requires TypeOk(f.ltype) && ValuesOk(f.ltype, vs)
    decreases f, 2
  {
    if vs == [] then []
    else if Packable(f.ltype) then WireTag(WT_STRING, f.tag) + LengthPrefixed(PackedBytes(f.ltype, vs))
    else ItemsBytes(f, vs)
  }

  ghost function FieldBytes(f: Field, s: Slot): Bytes
    requires TypeOk(f.ltype) && SlotOk(f, s)
    decreases f, 3
  {
    match f.htype
    case Required => TaggedBytes(f, s.value)
    case Proto3 => if IsDefault(f.ltype, s.value) then [] else TaggedBytes(f, s.value)
    case Repeated(_) => ArrayBytes(f, s.values)
    case FixedCount(_) => ArrayBytes(f, s.values)
    case _ => if s.option.Some? then TaggedBytes(f, s.option.value) else []
  }

  /** The first `n` fields of a message. */
  ghost function FieldsBytes(d: Descriptor, slots: seq<Slot>, n: nat): Bytes
    requires DescriptorOk(d) && MessageOk(d, slots) && n <= |slots|
    decreases d, 0, n
  {
    if n == 0 then [] else FieldsBytes(d, slots, n - 1) + FieldBytes(d.fields[n - 1], slots[n - 1])
  }

  ghost function MessageBytes(d: Descriptor, slots: seq<Slot>): Bytes
    requires DescriptorOk(d) && MessageOk(d, slots)
    decreases d, 1
  {
    FieldsBytes(d, slots, |slots|)
  }
}
