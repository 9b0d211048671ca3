/** The memory of a message struct (nanopb/pb.h), and what `pb_message_set_to_defaults`
    (nanopb/pb_decode.c) makes of it. */
module PbMemory {
  import opened History
  import opened Coding
  import opened Protobuf

  // ---------- memory ----------

  /** The memory of one item: of a number, bytes or string, or of a struct. */
  datatype Place = Leaf(v: Datum) | Struct(rooms: seq<Room>)

  /** The memory of one field. What is not present has memory as well: the payload of an absent optional
      field, and the items of an array after its last one. */
  datatype Room =
    | Single(place: Place)
    | Flagged(has: bool, place: Place)
    | Member(option: Option<Place>)
    | Items(places: seq<Place>, count: nat)
    | Fixed(places: seq<Place>)

  /** What a place is read as. */
  function ValueIn(p: Place): Datum
    decreases p
  {
    match p
    case Leaf(v) => v
    case Struct(rooms) => MessageValue(MessageIn(rooms))
  }

  /** A count larger than the array reads what lies behind it. */
  function SlotIn(r: Room): Slot
    decreases r
  {
    match r
    case Single(p) => One(ValueIn(p))
    case Flagged(has, p) => Maybe(if has then Some(ValueIn(p)) else None)
    case Member(None) => Maybe(None)
    case Member(Some(p)) => Maybe(Some(ValueIn(p)))
    case Items(ps, n) => Many(seq(n, k requires 0 <= k < n => if k < |ps| then ValueIn(ps[k]) else BoolValue(false)))
    case Fixed(ps) => Many(seq(|ps|, k requires 0 <= k < |ps| => ValueIn(ps[k])))
  }

  function MessageIn(rooms: seq<Room>): (r: seq<Slot>)
    ensures |r| == |rooms|
    decreases rooms
  {
    seq(|rooms|, i requires 0 <= i < |rooms| => SlotIn(rooms[i]))
  }

  /** Any bytes are some number; a string or bytes may have any length in uninitialised memory. */
  ghost predicate LeafShaped(l: LType, v: Datum)
    requires TypeOk(l)
  {
    match l
    case BoolType => true
    case BytesType(_) => v.DataValue?
    case StringType(_) => v.DataValue?
    case FixedBytesType(size) => v.DataValue? && |v.bytes| == size
    case MessageType(_) => false
    case _ => v.IntValue? && InRange(l, v.i)
  }

  ghost predicate PlaceShaped(l: LType, p: Place)
    requires TypeOk(l)
    decreases l, 0
  {
    if l.MessageType? then p.Struct? && Shaped(l.d, p.rooms) else p.Leaf? && LeafShaped(l, p.v)
  }

  ghost predicate AllShaped(l: LType, ps: seq<Place>)
    requires TypeOk(l)
    decreases l, 1
  {
    forall k :: 0 <= k < |ps| ==> PlaceShaped(l, ps[k])
  }

  ghost predicate RoomShaped(f: Field, r: Room)
    requires TypeOk(f.ltype)
    decreases f
  {
    match f.htype
    case Required => r.Single? && PlaceShaped(f.ltype, r.place)
    case Proto3 => r.Single? && PlaceShaped(f.ltype, r.place)
    case Optional => r.Flagged? && PlaceShaped(f.ltype, r.place)
    case OneOf(_) => r.Member? && (r.option.Some? ==> PlaceShaped(f.ltype, r.option.value))
    case Repeated(max) => r.Items? && |r.places| == max && AllShaped(f.ltype, r.places)
    case FixedCount(count) => r.Fixed? && |r.places| == count && AllShaped(f.ltype, r.places)
  }

  /** A union has one tag, so at most one of its members is selected. */
  ghost predicate OneMember(d: Descriptor, rooms: seq<Room>)
    requires |rooms| == |d.fields|
  {
    forall i, j :: 0 <= i < j < |rooms| && d.fields[i].htype.OneOf? && d.fields[i].htype == d.fields[j].htype ==>
      rooms[i] == Member(None) || rooms[j] == Member(None)
  }

  /** The memory of a struct that the descriptor describes, whatever is in it. */
  ghost predicate Shaped(d: Descriptor, rooms: seq<Room>)
    requires DescriptorOk(d)
    decreases d
  {
    && |rooms| == |d.fields|
    && (forall i :: 0 <= i < |rooms| ==> RoomShaped(d.fields[i], rooms[i]))
    && OneMember(d, rooms)
  }

  // ---------- clearing the first bytes ----------

  /** What the compiler decides: the size of `pb_size_t`; sizes and offsets; and what a number becomes
      when its first bytes are cleared, which depends on their order. */
  datatype Platform = Platform(width: nat, sizeOf: LType -> nat, dataAt: (Descriptor, nat) -> nat, flagAt: (Descriptor, nat) -> nat,
                               cut: (LType, nat, int) -> int)

  predicate IsNumber(l: LType) {
    Packable(l) && !l.BoolType?
  }

  function Most(a: nat, b: nat): nat {
    if a < b then b else a
  }

  /** What is left of `n` bytes after the first `at`. */
  function Beyond(n: nat, at: nat): nat {
    if n > at then n - at else 0
  }

  ghost predicate CutOk(env: Platform, l: LType)
    requires TypeOk(l) && IsNumber(l)
  {
    && (forall n: nat :: env.cut(l, n, 0) == 0)
    && (forall n: nat, i: int :: InRange(l, i) ==> InRange(l, env.cut(l, n, i)))
    && (forall n: nat, m: nat, i: int :: InRange(l, i) ==> env.cut(l, n, env.cut(l, m, i)) == env.cut(l, Most(n, m), i))
  }

  /** Clearing leaves numbers numbers, and clearing twice clears what either does. */
  ghost predicate PlatformOk(env: Platform) {
    forall l :: TypeOk(l) && IsNumber(l) ==> CutOk(env, l)
  }

  function ZeroBytes(bytes: Bytes, n: nat): (r: Bytes)
    ensures |r| == |bytes|
  {
    seq(|bytes|, k requires 0 <= k < |bytes| => if k < n then 0 else bytes[k])
  }

  /** A place other than a struct with its first `n` bytes cleared: bytes begin with their size. */
  function ClearLeaf(env: Platform, l: LType, n: nat, v: Datum): Datum {
    if n == 0 then v
    else
      match l
      case BoolType => BoolValue(false)
      case BytesType(_) => DataValue([])
      case StringType(_) => DataValue([])
      case FixedBytesType(_) => if v.DataValue? then DataValue(ZeroBytes(v.bytes, n)) else v
      case MessageType(_) => v
      case _ => if v.IntValue? then IntValue(env.cut(l, n, v.i)) else v
  }

  function ClearPlace(env: Platform, l: LType, n: nat, p: Place): Place
    decreases l, 0
  {
    match p
    case Leaf(v) => Leaf(ClearLeaf(env, l, n, v))
    case Struct(rooms) => if l.MessageType? && |rooms| == |l.d.fields| then Struct(ClearRooms(env, l.d, n, rooms)) else p
  }

  /** An array with its first `n` bytes cleared. */
  function ClearItems(env: Platform, l: LType, n: nat, ps: seq<Place>): (r: seq<Place>)
    ensures |r| == |ps| && forall k :: 0 <= k < |ps| ==> r[k] == ClearPlace(env, l, Beyond(n, k * env.sizeOf(l)), ps[k])
    decreases l, 1
  {
    seq(|ps|, k requires 0 <= k < |ps| => ClearPlace(env, l, Beyond(n, k * env.sizeOf(l)), ps[k]))
  }

  /** A field of a struct of which the first `n` bytes are cleared. Flags and counts lie inside them or
      outside. */
  function ClearRoom(env: Platform, d: Descriptor, i: nat, n: nat, r: Room): Room
    requires i < |d.fields|
    decreases d, 0
  {
    var l := d.fields[i].ltype;
    var m := Beyond(n, env.dataAt(d, i));
    var unset := env.flagAt(d, i) < n;
    match r
    case Single(p) => Single(ClearPlace(env, l, m, p))
    case Flagged(has, p) => Flagged(has && !unset, ClearPlace(env, l, m, p))
    case Member(None) => r
    case Member(Some(p)) => if unset then Member(None) else Member(Some(ClearPlace(env, l, m, p)))
    case Items(ps, count) => Items(ClearItems(env, l, m, ps), if unset then 0 else count)
    case Fixed(ps) => Fixed(ClearItems(env, l, m, ps))
  }

  function ClearRooms(env: Platform, d: Descriptor, n: nat, rooms: seq<Room>): (r: seq<Room>)
    requires |rooms| == |d.fields|
    ensures |r| == |rooms| && forall i :: 0 <= i < |rooms| ==> r[i] == ClearRoom(env, d, i, n, rooms[i])
    decreases d, 1
  {
    seq(|rooms|, i requires 0 <= i < |rooms| => ClearRoom(env, d, i, n, rooms[i]))
  }

  // ---------- defaults ----------

  function ZeroValue(l: LType): Datum {
    match l
    case BoolType => BoolValue(false)
    case BytesType(_) => DataValue([])
    case StringType(_) => DataValue([])
    case FixedBytesType(size) => DataValue(seq(size, _ => 0))
    case _ => IntValue(0)
  }

  /** Memory that has been cleared. */
  function ZeroPlace(l: LType): Place
    decreases l
  {
    if l.MessageType? then Struct(ZeroRooms(l.d)) else Leaf(ZeroValue(l))
  }

  function ZeroRoom(f: Field): Room
    decreases f
  {
    match f.htype
    case Required => Single(ZeroPlace(f.ltype))
    case Proto3 => Single(ZeroPlace(f.ltype))
    case Optional => Flagged(false, ZeroPlace(f.ltype))
    case OneOf(_) => Member(None)
    case Repeated(max) => Items(seq(max, _ => ZeroPlace(f.ltype)), 0)
    case FixedCount(count) => Fixed(seq(count, _ => ZeroPlace(f.ltype)))
  }

  function ZeroRooms(d: Descriptor): (r: seq<Room>)
    ensures |r| == |d.fields|
    decreases d
  {
    seq(|d.fields|, i requires 0 <= i < |d.fields| => ZeroRoom(d.fields[i]))
  }

  function PlaceOf(r: Room, l: LType): Place {
    match r
    case Single(p) => p
    case Flagged(_, p) => p
    case Member(Some(p)) => p
    case _ => ZeroPlace(l)
  }

  function PlacesOf(r: Room): seq<Place> {
    match r
    case Items(ps, _) => ps
    case Fixed(ps) => ps
    case _ => []
  }

  function RoomsOf(d: Descriptor, p: Place): (r: seq<Room>)
    ensures |r| == |d.fields|
  {
    if p.Struct? && |p.rooms| == |d.fields| then p.rooms else ZeroRooms(d)
  }

  function DefaultPlace(env: Platform, l: LType, p: Place): Place
    decreases l
  {
    if l.MessageType? then Struct(Defaults(env, l.d, RoomsOf(l.d, p))) else Leaf(ZeroValue(l))
  }

  /** `pb_field_set_to_default`: an array gets the count zero and its items stay as they are; for a
      fixed-count array, which has no count, the zero goes into its first bytes. */
  function DefaultRoom(env: Platform, f: Field, r: Room): Room
    decreases f
  {
    match f.htype
    case Required => Single(DefaultPlace(env, f.ltype, PlaceOf(r, f.ltype)))
    case Proto3 => Single(DefaultPlace(env, f.ltype, PlaceOf(r, f.ltype)))
    case Optional => Flagged(false, DefaultPlace(env, f.ltype, PlaceOf(r, f.ltype)))
    case OneOf(_) => Member(None)
    case Repeated(_) => Items(PlacesOf(r), 0)
    case FixedCount(_) => Fixed(ClearItems(env, f.ltype, env.width, PlacesOf(r)))
  }

  /** `pb_message_set_to_defaults`. */
  function Defaults(env: Platform, d: Descriptor, rooms: seq<Room>): (r: seq<Room>)
    requires |rooms| == |d.fields|
    ensures |r| == |rooms| && forall i :: 0 <= i < |rooms| ==> r[i] == DefaultRoom(env, d.fields[i], rooms[i])
    decreases d
  {
    seq(|rooms|, i requires 0 <= i < |rooms| => DefaultRoom(env, d.fields[i], rooms[i]))
  }

  // ---------- shapes stay ----------

  lemma {:induction false} ZeroShaped(l: LType)
    requires TypeOk(l)
    ensures PlaceShaped(l, ZeroPlace(l)) && ValueOk(l, ValueIn(ZeroPlace(l)))
    decreases l
  {
    if l.MessageType? {
      ZeroRoomsShaped(l.d);
    }
  }

  lemma {:induction false} ZeroRoomsShaped(d: Descriptor)
    requires DescriptorOk(d)
    ensures Shaped(d, ZeroRooms(d)) && MessageOk(d, MessageIn(ZeroRooms(d)))
    decreases d
  {
    hide ValueOk, PlaceShaped;
    forall i | 0 <= i < |d.fields|
      ensures RoomShaped(d.fields[i], ZeroRoom(d.fields[i])) && SlotOk(d.fields[i], SlotIn(ZeroRoom(d.fields[i])))
    {
      ZeroShaped(d.fields[i].ltype);
    }
  }

  lemma {:induction false} ClearedShaped(env: Platform, l: LType, n: nat, p: Place)
    requires PlatformOk(env) && TypeOk(l) && PlaceShaped(l, p)
    ensures PlaceShaped(l, ClearPlace(env, l, n, p))
    decreases l, 0
  {
    hide PlatformOk;
    if l.MessageType? {
      ClearedRoomsShaped(env, l.d, n, p.rooms);
    } else if IsNumber(l) {
      CutIsOk(env, l);
    }
  }

  lemma CutIsOk(env: Platform, l: LType)
    requires PlatformOk(env) && TypeOk(l) && IsNumber(l)
    ensures CutOk(env, l)
  {
  }

  lemma {:induction false} ClearedItemsShaped(env: Platform, l: LType, n: nat, ps: seq<Place>)
    requires PlatformOk(env) && TypeOk(l) && AllShaped(l, ps)
    ensures AllShaped(l, ClearItems(env, l, n, ps))
    decreases l, 1
  {
    hide PlaceShaped, PlatformOk, ClearPlace;
    forall k | 0 <= k < |ps|
      ensures PlaceShaped(l, ClearItems(env, l, n, ps)[k])
    {
      ClearedShaped(env, l, Beyond(n, k * env.sizeOf(l)), ps[k]);
    }
  }

  lemma {:induction false} ClearedRoomsShaped(env: Platform, d: Descriptor, n: nat, rooms: seq<Room>)
    requires PlatformOk(env) && DescriptorOk(d) && Shaped(d, rooms)
    ensures Shaped(d, ClearRooms(env, d, n, rooms))
    decreases d
  {
    hide PlaceShaped, AllShaped, PlatformOk, ClearPlace, ClearItems;
    forall i | 0 <= i < |rooms|
      ensures RoomShaped(d.fields[i], ClearRoom(env, d, i, n, rooms[i]))
    {
      var f, r, m := d.fields[i], rooms[i], Beyond(n, env.dataAt(d, i));
      assert RoomShaped(f, r);
      if r.Items? || r.Fixed? {
        ClearedItemsShaped(env, f.ltype, m, r.places);
      } else if !r.Member? || r.option.Some? {
        ClearedShaped(env, f.ltype, m, PlaceOf(r, f.ltype));
      }
    }
  }

  lemma {:induction false} DefaultShaped(env: Platform, l: LType, p: Place)
    requires PlatformOk(env) && TypeOk(l) && PlaceShaped(l, p)
    ensures PlaceShaped(l, DefaultPlace(env, l, p))
    decreases l
  {
    if l.MessageType? {
      DefaultsShaped(env, l.d, p.rooms);
    } else {
      ZeroShaped(l);
    }
  }

  lemma {:induction false} DefaultsShaped(env: Platform, d: Descriptor, rooms: seq<Room>)
    requires PlatformOk(env) && DescriptorOk(d) && Shaped(d, rooms)
    ensures Shaped(d, Defaults(env, d, rooms))
    decreases d
  {
    hide PlaceShaped, AllShaped, PlatformOk, DefaultPlace, ClearItems;
    forall i | 0 <= i < |rooms|
      ensures RoomShaped(d.fields[i], DefaultRoom(env, d.fields[i], rooms[i]))
    {
      var f, r := d.fields[i], rooms[i];
      assert RoomShaped(f, r);
      if r.Fixed? {
        ClearedItemsShaped(env, f.ltype, env.width, r.places);
      } else if r.Single? || r.Flagged? {
        DefaultShaped(env, f.ltype, r.place);
      }
    }
  }
}
