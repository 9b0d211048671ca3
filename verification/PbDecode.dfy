/** What nanopb's decoder (nanopb/pb_decode.c) makes of the bytes of a buffer between two positions. */
module PbDecode {
  import opened History
  import opened Coding
  import opened Protobuf
  import opened PbMemory

  // ---------- integers ----------

  function Pow2(n: nat): nat {
    if n == 0 then 1 else 2 * Pow2(n - 1)
  }

  const TWO32 := 0x1_0000_0000

  function BitOr(a: nat, b: nat): nat {
    if a == 0 then b else if b == 0 then a else 2 * BitOr(a / 2, b / 2) + if a % 2 == 1 || b % 2 == 1 then 1 else 0
  }

  /** Seven more bits at a bit position, as far as they go into 32 bits. */
  function Joined32(result: nat, digit: nat, bitpos: nat): nat {
    BitOr(result, digit * Pow2(bitpos)) % TWO32
  }

  /** The bytes of a 32-bit varint after the first, at a bit position. Bytes beyond the 32 bits may
      only be zero or continue a sign. The position is kept in eight bits, so it wraps around. */
  function Varint32Rest(s: Bytes, p: nat, limit: nat, bitpos: nat, result: nat): (r: Option<(nat, nat)>)
    requires limit <= |s|
    ensures r.Some? ==> p < r.value.1 <= limit
    decreases limit - p
  {
    if p >= limit then None
    else if bitpos >= 32 && s[p] % 128 != 0 && (result < 0x8000_0000 || s[p] != if bitpos < 63 then 0xFF else 0x01) then None
    else
      var next := if bitpos >= 32 then result else Joined32(result, s[p] % 128, bitpos);
      if s[p] >= 128 then Varint32Rest(s, p + 1, limit, (bitpos + 7) % 256, next)
      else if bitpos == 28 && s[p] / 16 % 8 != 0 then None
      else Some((next, p + 1))
  }

  /** `pb_decode_varint32`. */
  function Varint32At(s: Bytes, p: nat, limit: nat): (r: Option<(nat, nat)>)
    requires limit <= |s|
    ensures r.Some? ==> p < r.value.1 <= limit
  {
    if p >= limit then None
    else if s[p] < 128 then Some((s[p], p + 1))
    else Varint32Rest(s, p + 1, limit, 7, s[p] % 128)
  }

  /** `pb_decode_varint`. */
  function Varint64At(s: Bytes, p: nat, limit: nat): (r: Option<(nat, nat)>)
    requires limit <= |s|
    ensures r.Some? ==> p < r.value.1 <= limit
  {
    match ReadVarint(s, p, limit, 10)
    case None => None
    case Some((v, q)) => Some((v % TWO64, q))
  }

  function AsSigned(v: int, half: nat): int {
    if v < half then v else v - 2 * half
  }

  function UnZigZag(v: nat): int {
    if v % 2 == 1 then -(v / 2) - 1 else v / 2
  }

  /** A scalar; integers that do not fit the field are refused. */
  function ScalarAt(l: LType, s: Bytes, p: nat, limit: nat): (r: Option<(Datum, nat)>)
    requires limit <= |s| && Packable(l)
    ensures r.Some? ==> p < r.value.1 <= limit
  {
    match l
    case BoolType =>
      (match Varint32At(s, p, limit)
       case None => None
       case Some((v, q)) => Some((BoolValue(v != 0), q)))
    case IntType(w) =>
      (match Varint64At(s, p, limit)
       case None => None
       case Some((v, q)) =>
         var value := if w == 8 then AsSigned(v, 0x8000_0000_0000_0000) else AsSigned(v % TWO32, 0x8000_0000);
         if IsWidth(w) && InRange(l, value) then Some((IntValue(value), q)) else None)
    case UintType(w) =>
      (match Varint64At(s, p, limit)
       case None => None
       case Some((v, q)) => if IsWidth(w) && InRange(l, v) then Some((IntValue(v), q)) else None)
    case SintType(w) =>
      (match Varint64At(s, p, limit)
       case None => None
       case Some((v, q)) => if IsWidth(w) && InRange(l, UnZigZag(v)) then Some((IntValue(UnZigZag(v)), q)) else None)
    case Fixed32Type => if p + 4 > limit then None else Some((IntValue(DecodeFixed32(s[p..])), p + 4))
    case Fixed64Type => if p + 8 > limit then None else Some((IntValue(DecodeFixed64(s[p..])), p + 8))
  }

  // ---------- tags and unknown fields ----------

  datatype TagRead = EndOfMessage | BadTag | TagRead(number: nat, wireType: nat, next: nat)

  /** `pb_decode_tag`: a zero ends the message. */
  function TagAt(s: Bytes, p: nat, limit: nat): (r: TagRead)
    requires limit <= |s|
    ensures r.TagRead? ==> p < r.next <= limit
  {
    match Varint32At(s, p, limit)
    case None => BadTag
    case Some((v, q)) => if v == 0 then EndOfMessage else TagRead(v / 8, v % 8, q)
  }

  function SkipVarint(s: Bytes, p: nat, limit: nat): (r: Option<nat>)
    requires limit <= |s|
    ensures r.Some? ==> p < r.value <= limit
    decreases limit - p
  {
    if p >= limit then None else if s[p] < 128 then Some(p + 1) else SkipVarint(s, p + 1, limit)
  }

  /** `pb_skip_field`. */
  function Skipped(s: Bytes, p: nat, limit: nat, wireType: nat): (r: Option<nat>)
    requires p <= limit <= |s|
    ensures r.Some? ==> p <= r.value <= limit
  {
    if wireType == WT_VARINT then SkipVarint(s, p, limit)
    else if wireType == WT_64BIT then (if p + 8 <= limit then Some(p + 8) else None)
    else if wireType == WT_32BIT then (if p + 4 <= limit then Some(p + 4) else None)
    else if wireType == WT_STRING then
      match Varint32At(s, p, limit)
      case None => None
      case Some((size, q)) => if q + size <= limit then Some(q + size) else None
    else None
  }

  /** Past a field that is not in the descriptor. In an empty descriptor the terminator answers to the
      number zero, and is read as a bool. */
  function PastUnknown(d: Descriptor, number: nat, wireType: nat, s: Bytes, p: nat, limit: nat): (r: Option<nat>)
    requires p <= limit <= |s|
    ensures r.Some? ==> p <= r.value <= limit
  {
    if d.fields == [] && number == 0 then
      match Varint32At(s, p, limit)
      case None => None
      case Some((_, q)) => Some(q)
    else Skipped(s, p, limit, wireType)
  }

  // ---------- fields ----------

  function FindField(d: Descriptor, tag: nat, n: nat): (r: Option<nat>)
    requires n <= |d.fields|
    ensures r.Some? ==> r.value < n && d.fields[r.value].tag == tag
    ensures r.None? ==> forall i :: 0 <= i < n ==> d.fields[i].tag != tag
  {
    if n == 0 then None
    else if d.fields[n - 1].tag == tag then Some(n - 1)
    else FindField(d, tag, n - 1)
  }

  /** Tags are distinct, so a field is found by its tag. */
  lemma {:induction false} FoundField(d: Descriptor, i: nat, n: nat)
    requires DescriptorOk(d) && i < n <= |d.fields|
    ensures FindField(d, d.fields[i].tag, n) == Some(i)
    decreases n
  {
    if i < n - 1 {
      FoundField(d, i, n - 1);
    }
  }

  /** The number of required fields among the first `n`. */
  function RequiredBefore(d: Descriptor, n: nat): nat
    requires n <= |d.fields|
  {
    if n == 0 then 0 else RequiredBefore(d, n - 1) + if d.fields[n - 1].htype.Required? then 1 else 0
  }

  const MAX_REQUIRED_FIELDS := 64

  /** The state of `pb_decode_noinit`: the memory of the message so far, which required fields have been
      seen, and how much of which fixed-count field. */
  datatype Progress = Progress(rooms: seq<Room>, seen: set<nat>, fixedField: Option<nat>, fixedSize: nat)

  function Start(rooms: seq<Room>): Progress {
    Progress(rooms, {}, None, 0)
  }

  predicate FixedDone(d: Descriptor, st: Progress) {
    st.fixedField.Some? && st.fixedField.value < |d.fields| && d.fields[st.fixedField.value].htype.FixedCount? ==>
      st.fixedSize == d.fields[st.fixedField.value].htype.count
  }

  /** What is noted about a field before it is decoded. */
  function Noted(d: Descriptor, i: nat, st: Progress): Option<Progress>
    requires i < |d.fields|
  {
    if d.fields[i].htype.FixedCount? && st.fixedField != Some(i) then
      if FixedDone(d, st) then Some(st.(fixedField := Some(i), fixedSize := 0)) else None
    else if d.fields[i].htype.Required? && RequiredBefore(d, i) < MAX_REQUIRED_FIELDS then
      Some(st.(seen := st.seen + {RequiredBefore(d, i)}))
    else Some(st)
  }

  /** The checks after the last field. */
  function Finished(d: Descriptor, st: Progress): Option<seq<Room>> {
    var required := RequiredBefore(d, |d.fields|);
    var checked := if required > MAX_REQUIRED_FIELDS then MAX_REQUIRED_FIELDS else required;
    if FixedDone(d, st) && forall k :: 0 <= k < checked ==> k in st.seen then Some(st.rooms) else None
  }

  /** The memory that a value of a field is decoded into. When another member of a union is selected,
      the memory of the union is cleared first. */
  function Payload(f: Field, r: Room): Place {
    PlaceOf(r, f.ltype)
  }

  /** The memory with a value in field `i`, which takes the place of any other member of its union. */
  function WithValue(d: Descriptor, rooms: seq<Room>, i: nat, p: Place): (r: seq<Room>)
    requires |rooms| == |d.fields| && i < |rooms|
    ensures |r| == |rooms|
  {
    seq(|rooms|, k requires 0 <= k < |rooms| =>
      if k == i then ValueRoom(d.fields[i], p)
      else if d.fields[i].htype.OneOf? && d.fields[k].htype == d.fields[i].htype then Member(None)
      else rooms[k])
  }

  function ValueRoom(f: Field, p: Place): Room {
    if f.htype.OneOf? then Member(Some(p)) else if f.htype.Optional? then Flagged(true, p) else Single(p)
  }

  /** Items of a packed array up to a position, as long as there is room. */
  function PackedItems(l: LType, s: Bytes, p: nat, end: nat, room: nat): (r: Option<seq<Datum>>)
    requires p <= end <= |s| && Packable(l)
    ensures r.Some? ==> |r.value| <= room
    decreases end - p
  {
    if p == end then Some([])
    else if room == 0 then None
    else
      match ScalarAt(l, s, p, end)
      case None => None
      case Some((v, q)) =>
        match PackedItems(l, s, q, end, room - 1)
        case None => None
        case Some(rest) => Some([v] + rest)
  }

  /** `decode_static_field` for a packed array. */
  function PackedAt(l: LType, s: Bytes, p: nat, limit: nat, room: nat): (r: Option<(seq<Datum>, nat)>)
    requires p <= limit <= |s| && Packable(l)
    ensures r.Some? ==> p <= r.value.1 <= limit && |r.value.0| <= room
  {
    match Varint32At(s, p, limit)
    case None => None
    case Some((size, q)) =>
      if q + size > limit then None
      else
        match PackedItems(l, s, q, q + size, room)
        case None => None
        case Some(vs) => Some((vs, q + size))
  }

  /** Bytes with their length before them. */
  function StringAt(s: Bytes, p: nat, limit: nat): (r: Option<(Bytes, nat)>)
    requires p <= limit <= |s|
    ensures r.Some? ==> p <= r.value.1 <= limit
  {
    match Varint32At(s, p, limit)
    case None => None
    case Some((size, q)) => if q + size > limit then None else Some((s[q..q + size], q + size))
  }

  /** What a C string holds. */
  function UpToZero(bytes: Bytes): (r: Bytes)
    ensures |r| <= |bytes| && forall k :: 0 <= k < |r| ==> r[k] != 0
  {
    if bytes == [] || bytes[0] == 0 then [] else [bytes[0]] + UpToZero(bytes[1..])
  }

  /** The message that a place holds when its decoding starts; an array item is set to defaults first. */
  function StartsWith(env: Platform, d: Descriptor, current: Place, init: bool): (r: seq<Room>)
    ensures |r| == |d.fields|
  {
    if init then Defaults(env, d, RoomsOf(d, current)) else RoomsOf(d, current)
  }

  /** One item of a type, decoded into its place. */
  function PlaceAt(env: Platform, l: LType, s: Bytes, p: nat, limit: nat, current: Place, init: bool): (r: Option<(Place, nat)>)
    requires p <= limit <= |s|
    ensures r.Some? ==> p <= r.value.1 <= limit
    decreases l, 0
  {
    if Packable(l) then
      match ScalarAt(l, s, p, limit)
      case None => None
      case Some((v, q)) => Some((Leaf(v), q))
    else
      match StringAt(s, p, limit)
      case None => None
      case Some((bytes, q)) =>
        match l
        case BytesType(max) => if |bytes| <= max then Some((Leaf(DataValue(bytes)), q)) else None
        case StringType(space) => if |bytes| + 1 <= space then Some((Leaf(DataValue(UpToZero(bytes))), q)) else None
        case FixedBytesType(size) =>
          if bytes == [] then Some((Leaf(ZeroValue(l)), q)) else if |bytes| == size then Some((Leaf(DataValue(bytes)), q)) else None
        case MessageType(d) =>
          match MessageAt(env, d, s, q - |bytes|, q, Start(StartsWith(env, d, current, init)))
          case None => None
          case Some(rooms) => Some((Struct(rooms), q))
  }

  /** `decode_static_field`: a field from its payload on. */
  function FieldAt(env: Platform, d: Descriptor, i: nat, wireType: nat, s: Bytes, p: nat, limit: nat, st: Progress): (r: Option<(Progress, nat)>)
    requires p <= limit <= |s| && i < |d.fields| && |st.rooms| == |d.fields|
    ensures r.Some? ==> p <= r.value.1 <= limit && |r.value.0.rooms| == |d.fields|
    decreases d, limit - p, 0
  {
    var f := d.fields[i];
    if f.htype.Repeated? || f.htype.FixedCount? then ItemAt(env, f, i, wireType, s, p, limit, st)
    else
      match PlaceAt(env, f.ltype, s, p, limit, Payload(f, st.rooms[i]), false)
      case None => None
      case Some((v, q)) => Some((st.(rooms := WithValue(d, st.rooms, i, v)), q))
  }

  /** How many items an array field has so far. */
  function CountOf(st: Progress, r: Room): nat {
    if r.Items? then r.count else st.fixedSize
  }

  function Leaves(vs: seq<Datum>): (r: seq<Place>)
    ensures |r| == |vs| && forall k :: 0 <= k < |vs| ==> r[k] == Leaf(vs[k])
  {
    seq(|vs|, k requires 0 <= k < |vs| => Leaf(vs[k]))
  }

  /** The array with more items after those it has so far. */
  function WithItems(st: Progress, i: nat, more: seq<Place>): (r: Progress)
    requires i < |st.rooms| && CountOf(st, st.rooms[i]) + |more| <= |PlacesOf(st.rooms[i])|
    ensures |r.rooms| == |st.rooms|
  {
    var n, ps := CountOf(st, st.rooms[i]), PlacesOf(st.rooms[i]);
    var all := ps[..n] + more + ps[n + |more|..];
    if st.rooms[i].Items? then st.(rooms := st.rooms[i := Items(all, n + |more|)])
    else st.(rooms := st.rooms[i := Fixed(all)], fixedSize := n + |more|)
  }

  /** The array has as many places as its descriptor says. */
  function ItemAt(env: Platform, f: Field, i: nat, wireType: nat, s: Bytes, p: nat, limit: nat, st: Progress): (r: Option<(Progress, nat)>)
    requires p <= limit <= |s| && i < |st.rooms|
    ensures r.Some? ==> p <= r.value.1 <= limit && |r.value.0.rooms| == |st.rooms|
    decreases f, 0
  {
    var n, ps := CountOf(st, st.rooms[i]), PlacesOf(st.rooms[i]);
    if n > |ps| then None
    else if wireType == WT_STRING && Packable(f.ltype) then
      match PackedAt(f.ltype, s, p, limit, |ps| - n)
      case None => None
      case Some((vs, q)) => Some((WithItems(st, i, Leaves(vs)), q))
    else if n == |ps| then None
    else
      match PlaceAt(env, f.ltype, s, p, limit, ps[n], true)
      case None => None
      case Some((v, q)) => Some((WithItems(st, i, [v]), q))
  }

  /** `pb_decode_noinit` on the bytes from `p` to `limit`. */
  function MessageAt(env: Platform, d: Descriptor, s: Bytes, p: nat, limit: nat, st: Progress): (r: Option<seq<Room>>)
    requires p <= limit <= |s| && |st.rooms| == |d.fields|
    ensures r.Some? ==> |r.value| == |d.fields|
    decreases d, limit - p, 1
  {
    if p == limit then Finished(d, st)
    else
      match TagAt(s, p, limit)
      case EndOfMessage => Finished(d, st)
      case BadTag => None
      case TagRead(number, wireType, q) =>
        match FindField(d, number, |d.fields|)
        case None =>
          (match PastUnknown(d, number, wireType, s, q, limit)
           case None => None
           case Some(r) => MessageAt(env, d, s, r, limit, st))
        case Some(i) =>
          match Noted(d, i, st)
          case None => None
          case Some(noted) =>
            match FieldAt(env, d, i, wireType, s, q, limit, noted)
            case None => None
            case Some((next, r)) => MessageAt(env, d, s, r, limit, next)
  }

  /** `pb_decode`: all of a buffer, into a struct with the given memory. */
  function Decoded(env: Platform, d: Descriptor, s: Bytes, memory: seq<Room>): Option<seq<Room>>
    requires |memory| == |d.fields|
  {
    MessageAt(env, d, s, 0, |s|, Start(Defaults(env, d, memory)))
  }
}
