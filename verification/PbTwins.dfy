/** Two decodings of the same bytes, one into memory that was cleared before, go on in step: what is on
    the wire decides alone whether they succeed, which values are present, and which items of
    fixed-count arrays have ever been decoded. The other items hold what their memory held when the
    message was set to defaults. */
module PbTwins {
  import opened History
  import opened Coding
  import opened Protobuf
  import opened PbMemory
  import opened PbDecode
  import opened PbShapes
  import opened PbClearing

  // ---------- which items were met ----------

  /** For every field: how many items of a fixed-count array have ever been decoded, and the same of the
      messages in the field. */
  datatype Trace = Trace(fields: seq<Met>)
  datatype Met = Met(ever: nat, inner: seq<Trace>)

  function Space(h: HType): nat {
    match h
    case Repeated(max) => max
    case FixedCount(count) => count
    case _ => 1
  }

  function NothingMet(f: Field): Met
    decreases f
  {
    Met(0, if f.ltype.MessageType? then seq(Space(f.htype), _ => NoTrace(f.ltype.d)) else [])
  }

  function NoTrace(d: Descriptor): (t: Trace)
    ensures |t.fields| == |d.fields| && forall i :: 0 <= i < |d.fields| ==> t.fields[i] == NothingMet(d.fields[i])
    decreases d
  {
    Trace(seq(|d.fields|, i requires 0 <= i < |d.fields| => NothingMet(d.fields[i])))
  }

  /** The trace of an item after its decoding. */
  function PlaceTrace(env: Platform, l: LType, s: Bytes, p: nat, limit: nat, current: Place, init: bool, t: Trace): Trace
    requires p <= limit <= |s|
    decreases l, 0
  {
    if l.MessageType? && |t.fields| == |l.d.fields| then
      match StringAt(s, p, limit)
      case None => t
      case Some((bytes, q)) => MessageTrace(env, l.d, s, q - |bytes|, q, Start(StartsWith(env, l.d, current, init)), t)
    else t
  }

  /** Selecting a member of a union forgets what was met in it. */
  function ValueTrace(env: Platform, f: Field, s: Bytes, p: nat, limit: nat, r: Room, m: Met): Met
    requires p <= limit <= |s|
    decreases f, 0
  {
    if f.ltype.MessageType? && m.inner != [] then
      var from := if f.htype.OneOf? && r == Member(None) then NoTrace(f.ltype.d) else m.inner[0];
      Met(m.ever, [PlaceTrace(env, f.ltype, s, p, limit, Payload(f, r), false, from)])
    else m
  }

  function ItemTrace(env: Platform, f: Field, i: nat, wireType: nat, s: Bytes, p: nat, limit: nat, st: Progress, m: Met): Met
    requires p <= limit <= |s| && i < |st.rooms|
    decreases f, 0
  {
    var n, ps := CountOf(st, st.rooms[i]), PlacesOf(st.rooms[i]);
    if n > |ps| then m
    else if wireType == WT_STRING && Packable(f.ltype) then
      match PackedAt(f.ltype, s, p, limit, |ps| - n)
      case None => m
      case Some((vs, _)) => Met(Most(m.ever, n + |vs|), m.inner)
    else if n == |ps| then m
    else Met(Most(m.ever, n + 1), if n < |m.inner| then m.inner[n := PlaceTrace(env, f.ltype, s, p, limit, ps[n], true, m.inner[n])] else m.inner)
  }

  function FieldTrace(env: Platform, d: Descriptor, i: nat, wireType: nat, s: Bytes, p: nat, limit: nat, st: Progress, t: Trace): (r: Trace)
    requires p <= limit <= |s| && i < |d.fields| && |st.rooms| == |d.fields| == |t.fields|
    ensures |r.fields| == |t.fields|
    decreases d, limit - p, 0
  {
    var f := d.fields[i];
    Trace(t.fields[i := if f.htype.Repeated? || f.htype.FixedCount? then ItemTrace(env, f, i, wireType, s, p, limit, st, t.fields[i])
                        else ValueTrace(env, f, s, p, limit, st.rooms[i], t.fields[i])])
  }

  function MessageTrace(env: Platform, d: Descriptor, s: Bytes, p: nat, limit: nat, st: Progress, t: Trace): (r: Trace)
    requires p <= limit <= |s| && |st.rooms| == |d.fields| == |t.fields|
    ensures |r.fields| == |t.fields|
    decreases d, limit - p, 1
  {
    if p == limit then t
    else
      match TagAt(s, p, limit)
      case EndOfMessage => t
      case BadTag => t
      case TagRead(number, wireType, q) =>
        match FindField(d, number, |d.fields|)
        case None =>
          (match PastUnknown(d, number, wireType, s, q, limit)
           case None => t
           case Some(r) => MessageTrace(env, d, s, r, limit, st, t))
        case Some(i) =>
          match Noted(d, i, st)
          case None => t
          case Some(noted) =>
            match FieldAt(env, d, i, wireType, s, q, limit, noted)
            case None => t
            case Some((next, r)) => MessageTrace(env, d, s, r, limit, next, FieldTrace(env, d, i, wireType, s, q, limit, noted, t))
  }

  /** The fields of a message that decoding comes across. */
  function FoundIn(env: Platform, d: Descriptor, s: Bytes, p: nat, limit: nat, st: Progress): set<nat>
    requires p <= limit <= |s| && |st.rooms| == |d.fields|
    decreases limit - p
  {
    if p == limit then {}
    else
      match TagAt(s, p, limit)
      case EndOfMessage => {}
      case BadTag => {}
      case TagRead(number, wireType, q) =>
        match FindField(d, number, |d.fields|)
        case None =>
          (match PastUnknown(d, number, wireType, s, q, limit)
           case None => {}
           case Some(r) => FoundIn(env, d, s, r, limit, st))
        case Some(i) =>
          match Noted(d, i, st)
          case None => {}
          case Some(noted) =>
            match FieldAt(env, d, i, wireType, s, q, limit, noted)
            case None => {}
            case Some((next, r)) => {i} + FoundIn(env, d, s, r, limit, next)
  }

  // ---------- two runs ----------

  /** The rooms of an item as its decoding would find them, or none if it is not a message. */
  function ItemBase(env: Platform, l: LType, p: Place): seq<Room> {
    if l.MessageType? then ItemStart(env, l.d, p) else []
  }

  function RoomBase(f: Field, r: Room): seq<Room> {
    if !f.ltype.MessageType? then []
    else if f.htype.OneOf? then ZeroRooms(f.ltype.d)
    else RoomsOf(f.ltype.d, PlaceOf(r, f.ltype))
  }

  /** Two places with a decoded value. */
  ghost predicate ValueAlike(env: Platform, l: LType, c: Place, z: Place, base: seq<Room>, m: Met, k: nat)
    requires TypeOk(l)
    decreases l, 0
  {
    if l.MessageType? then c.Struct? && z.Struct? && k < |m.inner| && Alike(env, l.d, c.rooms, z.rooms, base, m.inner[k])
    else LeafOk(l, c)
  }

  /** Two places with an item that is not present. */
  ghost predicate HiddenAlike(env: Platform, l: LType, c: Place, z: Place, base: seq<Room>, m: Met, k: nat)
    requires TypeOk(l)
    decreases l, 0
  {
    l.MessageType? ==> k < |m.inner| && Alike(env, l.d, ItemStart(env, l.d, c), ItemStart(env, l.d, z), base, m.inner[k])
  }

  /** Two items of a fixed-count array that have never been decoded. */
  ghost predicate Untouched(l: LType, c: Place, before: Place, m: Met, k: nat) {
    c == before && (l.MessageType? ==> k < |m.inner| && m.inner[k] == NoTrace(l.d))
  }

  /** The first `n` items. */
  ghost predicate AllAlike(env: Platform, l: LType, c: seq<Place>, z: seq<Place>, before: seq<Place>, m: Met, n: nat)
    requires TypeOk(l) && n <= |c| == |z| == |before|
    decreases l, 1
  {
    forall k: nat :: k < n ==> ValueAlike(env, l, c[k], z[k], ItemBase(env, l, before[k]), m, k)
  }

  /** The items after them. */
  ghost predicate AllHidden(env: Platform, l: LType, c: seq<Place>, z: seq<Place>, before: seq<Place>, m: Met, n: nat)
    requires TypeOk(l) && n <= |c| == |z| == |before|
    decreases l, 1
  {
    forall k: nat :: n <= k < |c| ==> HiddenAlike(env, l, c[k], z[k], ItemBase(env, l, before[k]), m, k)
  }

  ghost predicate AllUntouched(l: LType, c: seq<Place>, before: seq<Place>, m: Met, n: nat)
    requires n <= |c| == |before|
  {
    forall k: nat :: n <= k < |c| ==> Untouched(l, c[k], before[k], m, k)
  }

  ghost predicate RoomAlike(env: Platform, f: Field, c: Room, z: Room, before: Room, m: Met)
    requires TypeOk(f.ltype)
    decreases f
  {
    match f.htype
    case Repeated(max) =>
      && c.Items? && z.Items? && c.count == z.count <= max && |c.places| == |z.places| == |PlacesOf(before)| == max
      && (f.ltype.MessageType? ==> |m.inner| == max)
      && AllAlike(env, f.ltype, c.places, z.places, PlacesOf(before), m, c.count)
      && AllHidden(env, f.ltype, c.places, z.places, PlacesOf(before), m, c.count)
    case FixedCount(count) =>
      && c.Fixed? && z.Fixed? && m.ever <= count && |c.places| == |z.places| == |PlacesOf(before)| == count
      && (f.ltype.MessageType? ==> |m.inner| == count)
      && AllAlike(env, f.ltype, c.places, z.places, PlacesOf(before), m, m.ever)
      && AllUntouched(f.ltype, c.places, PlacesOf(before), m, m.ever)
    case OneOf(_) =>
      && c.Member? && z.Member? && c.option.Some? == z.option.Some? && (f.ltype.MessageType? ==> |m.inner| == 1)
      && (c.option.Some? ==> ValueAlike(env, f.ltype, c.option.value, z.option.value, RoomBase(f, before), m, 0))
    case Optional =>
      && c.Flagged? && z.Flagged? && c.has == z.has
      && ValueAlike(env, f.ltype, c.place, z.place, RoomBase(f, before), m, 0)
    case _ => c.Single? && z.Single? && ValueAlike(env, f.ltype, c.place, z.place, RoomBase(f, before), m, 0)
  }

  /** The rooms `c` of a decoding into memory that was `before` when it had been set to defaults, and
      `z` of one into cleared memory. */
  ghost predicate Alike(env: Platform, d: Descriptor, c: seq<Room>, z: seq<Room>, before: seq<Room>, t: Trace)
    requires DescriptorOk(d)
    decreases d
  {
    && |c| == |z| == |before| == |t.fields| == |d.fields|
    && forall i :: 0 <= i < |c| ==> RoomAlike(env, d.fields[i], c[i], z[i], before[i], t.fields[i])
  }

  // ---------- at the start ----------

  lemma {:induction false} AlikeAtFirst(env: Platform, d: Descriptor, c: seq<Room>, z: seq<Room>)
    requires PlatformOk(env) && DescriptorOk(d) && Shaped(d, c) && Shaped(d, z)
    ensures |c| == |z| == |d.fields| && Alike(env, d, Defaults(env, d, c), Defaults(env, d, z), Defaults(env, d, c), NoTrace(d))
    decreases d
  {
    hide PlatformOk, PlaceShaped, AllShaped, DefaultRoom, RoomAlike, NothingMet;
    forall i | 0 <= i < |c|
      ensures var f := d.fields[i];
              RoomAlike(env, f, DefaultRoom(env, f, c[i]), DefaultRoom(env, f, z[i]), DefaultRoom(env, f, c[i]), NothingMet(f))
    {
      assert RoomShaped(d.fields[i], c[i]) && RoomShaped(d.fields[i], z[i]);
      RoomAlikeAtFirst(env, d.fields[i], c[i], z[i]);
    }
  }

  lemma {:induction false} PlaceAlikeAtFirst(env: Platform, l: LType, c: Place, z: Place)
    requires PlatformOk(env) && TypeOk(l) && l.MessageType? && PlaceShaped(l, c) && PlaceShaped(l, z)
    ensures Alike(env, l.d, ItemStart(env, l.d, c), ItemStart(env, l.d, z), ItemStart(env, l.d, c), NoTrace(l.d))
    decreases l
  {
    hide PlatformOk, Alike, Shaped, Defaults, NoTrace;
    ShapedSize(l.d, c.rooms);
    ShapedSize(l.d, z.rooms);
    AlikeAtFirst(env, l.d, c.rooms, z.rooms);
  }

  lemma {:induction false} RoomAlikeAtFirst(env: Platform, f: Field, c: Room, z: Room)
    requires PlatformOk(env) && TypeOk(f.ltype) && RoomShaped(f, c) && RoomShaped(f, z)
    ensures RoomAlike(env, f, DefaultRoom(env, f, c), DefaultRoom(env, f, z), DefaultRoom(env, f, c), NothingMet(f))
    decreases f
  {
    hide PlatformOk, PlaceShaped, Alike, ClearPlace, Defaults, ValueOk, NoTrace;
    var l := f.ltype;
    if c.Items? {
      var m := NothingMet(f);
      forall k: nat | k < |c.places|
        ensures HiddenAlike(env, l, c.places[k], z.places[k], ItemBase(env, l, c.places[k]), m, k)
      {
        if l.MessageType? {
          PlaceAlikeAtFirst(env, l, c.places[k], z.places[k]);
        }
      }
    } else if c.Single? || c.Flagged? {
      if l.MessageType? {
        PlaceAlikeAtFirst(env, l, c.place, z.place);
      } else {
        ZeroIsOk(l);
      }
    }
  }

  lemma ZeroIsOk(l: LType)
    requires TypeOk(l) && !l.MessageType?
    ensures ValueOk(l, ZeroValue(l))
  {
    ZeroShaped(l);
  }

  /** A member of a union that has just been selected. */
  lemma ZeroAlike(env: Platform, d: Descriptor)
    requires PlatformOk(env) && DescriptorOk(d)
    ensures Alike(env, d, ZeroRooms(d), ZeroRooms(d), ZeroRooms(d), NoTrace(d))
    ensures Settled(env, d, ZeroRooms(d)) && forall n: nat :: Absorbs(env, d, n, ZeroRooms(d))
  {
    hide PlatformOk, Alike, Shaped, Settled, Absorbs, ZeroRooms, NoTrace;
    ZeroRoomsShaped(d);
    ShapedSize(d, ZeroRooms(d));
    AlikeAtFirst(env, d, ZeroRooms(d), ZeroRooms(d));
    DefaultZeroRooms(env, d);
    DefaultsSettled(env, d, ZeroRooms(d));
    forall n: nat
      ensures Absorbs(env, d, n, ZeroRooms(d))
    {
      DefaultsAbsorb(env, d, n, ZeroRooms(d));
      ClearZeroRooms(env, d, n);
    }
  }

  // ---------- clearing and defaults keep two runs alike ----------

  lemma {:induction false} ClearedAlike(env: Platform, d: Descriptor, n: nat, c: seq<Room>, z: seq<Room>, before: seq<Room>, t: Trace)
    requires PlatformOk(env) && DescriptorOk(d) && Shaped(d, c) && Shaped(d, z) && Alike(env, d, c, z, before, t)
    requires |before| == |d.fields| && Absorbs(env, d, n, before) && Settled(env, d, before)
    ensures |c| == |z| == |d.fields| && Alike(env, d, ClearRooms(env, d, n, c), ClearRooms(env, d, n, z), before, t)
    decreases d, 2
  {
    hide PlatformOk, PlaceShaped, AllShaped, ClearRoom, RoomAlike, RoomAbsorbs, RoomSettled, Beyond;
    forall i | 0 <= i < |c|
      ensures RoomAlike(env, d.fields[i], ClearRoom(env, d, i, n, c[i]), ClearRoom(env, d, i, n, z[i]), before[i], t.fields[i])
    {
      assert RoomShaped(d.fields[i], c[i]) && RoomShaped(d.fields[i], z[i]);
      ClearedRoomAlike(env, d, i, n, c[i], z[i], before[i], t.fields[i]);
    }
  }

  lemma {:induction false} ClearedRoomAlike(env: Platform, d: Descriptor, i: nat, n: nat, c: Room, z: Room, before: Room, m: Met)
    requires PlatformOk(env) && DescriptorOk(d) && i < |d.fields| && TypeOk(d.fields[i].ltype)
    requires RoomShaped(d.fields[i], c) && RoomShaped(d.fields[i], z) && RoomAlike(env, d.fields[i], c, z, before, m)
    requires RoomAbsorbs(env, d.fields[i], Beyond(n, env.dataAt(d, i)), before) && RoomSettled(env, d.fields[i], before)
    ensures RoomAlike(env, d.fields[i], ClearRoom(env, d, i, n, c), ClearRoom(env, d, i, n, z), before, m)
    decreases d, 1
  {
    hide PlatformOk, PlaceShaped, ClearPlace, ItemAbsorbs, ItemSettled, Beyond, Absorbs, Settled, ValueAlike, HiddenAlike, RoomsOf, ItemBase;
    var f, at := d.fields[i], Beyond(n, env.dataAt(d, i));
    var l := f.ltype;
    if c.Items? {
      forall k: nat | k < |c.places|
        ensures var x := Beyond(at, k * env.sizeOf(l));
                && (k < c.count ==> ValueAlike(env, l, ClearPlace(env, l, x, c.places[k]), ClearPlace(env, l, x, z.places[k]), ItemBase(env, l, PlacesOf(before)[k]), m, k))
                && HiddenAlike(env, l, ClearPlace(env, l, x, c.places[k]), ClearPlace(env, l, x, z.places[k]), ItemBase(env, l, PlacesOf(before)[k]), m, k)
      {
        var x := Beyond(at, k * env.sizeOf(l));
        assert ItemSettled(env, l, PlacesOf(before)[k]);
        if k < c.count {
          ClearedValueAlike(env, l, x, c.places[k], z.places[k], PlacesOf(before)[k], m, k);
          HideAlike(env, l, c.places[k], z.places[k], PlacesOf(before)[k], m, k);
        }
        ClearedHiddenAlike(env, l, x, c.places[k], z.places[k], PlacesOf(before)[k], m, k);
      }
    } else if c.Fixed? {
      forall k: nat | k < m.ever
        ensures var x := Beyond(at, k * env.sizeOf(l));
                ValueAlike(env, l, ClearPlace(env, l, x, c.places[k]), ClearPlace(env, l, x, z.places[k]), ItemBase(env, l, PlacesOf(before)[k]), m, k)
      {
        ClearedValueAlike(env, l, Beyond(at, k * env.sizeOf(l)), c.places[k], z.places[k], PlacesOf(before)[k], m, k);
      }
    } else if !c.Member? || c.option.Some? {
      ClearedPlaceAlike(env, f, at, c, z, before, m);
    }
  }

  lemma {:induction false} ClearedPlaceAlike(env: Platform, f: Field, n: nat, c: Room, z: Room, before: Room, m: Met)
    requires PlatformOk(env) && TypeOk(f.ltype) && RoomShaped(f, c) && RoomShaped(f, z)
    requires !f.htype.Repeated? && !f.htype.FixedCount? && (c.Member? ==> c.option.Some? && z.option.Some?)
    requires RoomAbsorbs(env, f, n, before) && RoomSettled(env, f, before)
    requires ValueAlike(env, f.ltype, PlaceOf(c, f.ltype), PlaceOf(z, f.ltype), RoomBase(f, before), m, 0)
    ensures ValueAlike(env, f.ltype, ClearPlace(env, f.ltype, n, PlaceOf(c, f.ltype)), ClearPlace(env, f.ltype, n, PlaceOf(z, f.ltype)), RoomBase(f, before), m, 0)
    decreases f
  {
    hide PlatformOk, ClearLeaf, Absorbs, Settled, Alike, ClearRooms, Shaped, ValueOk;
    var l, a, b := f.ltype, PlaceOf(c, f.ltype), PlaceOf(z, f.ltype);
    assert PlaceShaped(l, a) && PlaceShaped(l, b);
    if l.MessageType? {
      if f.htype.OneOf? {
        ZeroAlike(env, l.d);
      }
      ShapedSize(l.d, a.rooms);
      ShapedSize(l.d, b.rooms);
      ClearedAlike(env, l.d, n, a.rooms, b.rooms, RoomBase(f, before), m.inner[0]);
    } else {
      LeafStaysOk(env, l, n, a.v);
    }
  }

  lemma {:induction false} ClearedValueAlike(env: Platform, l: LType, n: nat, c: Place, z: Place, before: Place, m: Met, k: nat)
    requires PlatformOk(env) && TypeOk(l) && PlaceShaped(l, c) && PlaceShaped(l, z)
    requires (l.MessageType? ==> ItemAbsorbs(env, l, n, before)) && ItemSettled(env, l, before) && ValueAlike(env, l, c, z, ItemBase(env, l, before), m, k)
    ensures ValueAlike(env, l, ClearPlace(env, l, n, c), ClearPlace(env, l, n, z), ItemBase(env, l, before), m, k)
    decreases l, 3
  {
    hide PlatformOk, ClearLeaf, Absorbs, Settled, Alike, ClearRooms, Shaped, ValueOk, Defaults;
    if l.MessageType? {
      ShapedSize(l.d, c.rooms);
      ShapedSize(l.d, z.rooms);
      ClearedAlike(env, l.d, n, c.rooms, z.rooms, ItemBase(env, l, before), m.inner[k]);
    } else {
      LeafStaysOk(env, l, n, c.v);
    }
  }

  lemma {:induction false} ClearedHiddenAlike(env: Platform, l: LType, n: nat, c: Place, z: Place, before: Place, m: Met, k: nat)
    requires PlatformOk(env) && TypeOk(l) && PlaceShaped(l, c) && PlaceShaped(l, z)
    requires ItemSettled(env, l, before) && (l.MessageType? ==> ItemAbsorbs(env, l, n, before)) && HiddenAlike(env, l, c, z, ItemBase(env, l, before), m, k)
    ensures HiddenAlike(env, l, ClearPlace(env, l, n, c), ClearPlace(env, l, n, z), ItemBase(env, l, before), m, k)
    decreases l, 3
  {
    hide PlatformOk, Absorbs, Settled, Alike, ClearRooms, Shaped, Defaults;
    if l.MessageType? {
      ShapedSize(l.d, c.rooms);
      ShapedSize(l.d, z.rooms);
      DefaultsShaped(env, l.d, c.rooms);
      DefaultsShaped(env, l.d, z.rooms);
      ClearedAlike(env, l.d, n, Defaults(env, l.d, c.rooms), Defaults(env, l.d, z.rooms), ItemBase(env, l, before), m.inner[k]);
      DefaultsCleared(env, l.d, n, c.rooms);
      DefaultsCleared(env, l.d, n, z.rooms);
    }
  }

  /** An item that is no longer present. */
  lemma {:induction false} HideAlike(env: Platform, l: LType, c: Place, z: Place, before: Place, m: Met, k: nat)
    requires PlatformOk(env) && TypeOk(l) && PlaceShaped(l, c) && PlaceShaped(l, z)
    requires ItemSettled(env, l, before) && ValueAlike(env, l, c, z, ItemBase(env, l, before), m, k)
    ensures HiddenAlike(env, l, c, z, ItemBase(env, l, before), m, k)
    decreases l, 3
  {
    hide PlatformOk, Settled, Alike, Shaped, Defaults;
    if l.MessageType? {
      ShapedSize(l.d, c.rooms);
      ShapedSize(l.d, z.rooms);
      DefaultsAlike(env, l.d, c.rooms, z.rooms, ItemBase(env, l, before), m.inner[k]);
    }
  }

  lemma {:induction false} DefaultsAlike(env: Platform, d: Descriptor, c: seq<Room>, z: seq<Room>, before: seq<Room>, t: Trace)
    requires PlatformOk(env) && DescriptorOk(d) && Shaped(d, c) && Shaped(d, z) && Alike(env, d, c, z, before, t)
    requires |before| == |d.fields| && Settled(env, d, before)
    ensures |c| == |z| == |d.fields| && Alike(env, d, Defaults(env, d, c), Defaults(env, d, z), before, t)
    decreases d, 2
  {
    hide PlatformOk, PlaceShaped, AllShaped, DefaultRoom, RoomAlike, RoomSettled;
    forall i | 0 <= i < |c|
      ensures RoomAlike(env, d.fields[i], DefaultRoom(env, d.fields[i], c[i]), DefaultRoom(env, d.fields[i], z[i]), before[i], t.fields[i])
    {
      assert RoomShaped(d.fields[i], c[i]) && RoomShaped(d.fields[i], z[i]);
      DefaultRoomAlike(env, d.fields[i], c[i], z[i], before[i], t.fields[i]);
    }
  }

  lemma {:induction false} DefaultRoomAlike(env: Platform, f: Field, c: Room, z: Room, before: Room, m: Met)
    requires PlatformOk(env) && TypeOk(f.ltype) && RoomShaped(f, c) && RoomShaped(f, z) && RoomAlike(env, f, c, z, before, m)
             && RoomSettled(env, f, before)
    ensures RoomAlike(env, f, DefaultRoom(env, f, c), DefaultRoom(env, f, z), before, m)
    decreases f
  {
    hide PlatformOk, PlaceShaped, ClearPlace, ItemAbsorbs, ItemSettled, Beyond, Settled, ValueAlike, HiddenAlike, RoomsOf, ItemBase, DefaultPlace;
    var l := f.ltype;
    if c.Items? {
      forall k: nat | k < |c.places|
        ensures HiddenAlike(env, l, c.places[k], z.places[k], ItemBase(env, l, PlacesOf(before)[k]), m, k)
      {
        assert ItemSettled(env, l, PlacesOf(before)[k]);
        if k < c.count {
          HideAlike(env, l, c.places[k], z.places[k], PlacesOf(before)[k], m, k);
        }
      }
    } else if c.Fixed? {
      forall k: nat | k < m.ever
        ensures var x := Beyond(env.width, k * env.sizeOf(l));
                ValueAlike(env, l, ClearPlace(env, l, x, c.places[k]), ClearPlace(env, l, x, z.places[k]), ItemBase(env, l, PlacesOf(before)[k]), m, k)
      {
        ClearedValueAlike(env, l, Beyond(env.width, k * env.sizeOf(l)), c.places[k], z.places[k], PlacesOf(before)[k], m, k);
      }
    } else if !c.Member? {
      DefaultPlaceAlike(env, f, c, z, before, m);
    }
  }

  lemma {:induction false} DefaultPlaceAlike(env: Platform, f: Field, c: Room, z: Room, before: Room, m: Met)
    requires PlatformOk(env) && TypeOk(f.ltype) && RoomShaped(f, c) && RoomShaped(f, z) && RoomSettled(env, f, before)
    requires f.htype.Required? || f.htype.Proto3? || f.htype.Optional?
    requires ValueAlike(env, f.ltype, c.place, z.place, RoomBase(f, before), m, 0)
    ensures ValueAlike(env, f.ltype, DefaultPlace(env, f.ltype, c.place), DefaultPlace(env, f.ltype, z.place), RoomBase(f, before), m, 0)
    decreases f, 0
  {
    hide PlatformOk, Settled, Alike, Shaped, Defaults, ValueOk, ZeroValue;
    var l := f.ltype;
    if l.MessageType? {
      ShapedSize(l.d, c.place.rooms);
      ShapedSize(l.d, z.place.rooms);
      DefaultsAlike(env, l.d, c.place.rooms, z.place.rooms, RoomBase(f, before), m.inner[0]);
    } else {
      ZeroIsOk(l);
    }
  }

  // ---------- two runs in step ----------

  ghost predicate Twins(env: Platform, d: Descriptor, c: Progress, z: Progress, before: seq<Room>, t: Trace)
    requires DescriptorOk(d)
  {
    && Alike(env, d, c.rooms, z.rooms, before, t)
    && c.seen == z.seen && c.fixedField == z.fixedField && c.fixedSize == z.fixedSize
    && (c.fixedField.Some? ==> c.fixedField.value < |t.fields| && c.fixedSize <= t.fields[c.fixedField.value].ever)
  }

  lemma {:induction false} PlaceRuns(env: Platform, l: LType, s: Bytes, p: nat, limit: nat, c: Place, z: Place, init: bool,
          before: seq<Room>, t: Trace)
    requires PlatformOk(env) && p <= limit <= |s| && TypeOk(l) && PlaceShaped(l, c) && PlaceShaped(l, z)
    requires l.MessageType? ==> |before| == |l.d.fields| && Settled(env, l.d, before) && Alike(env, l.d, StartsWith(env, l.d, c, init), StartsWith(env, l.d, z, init), before, t)
    ensures var after := Met(0, [PlaceTrace(env, l, s, p, limit, z, init, t)]);
            match PlaceAt(env, l, s, p, limit, z, init)
            case None => PlaceAt(env, l, s, p, limit, c, init).None?
            case Some((v, q)) =>
              && PlaceAt(env, l, s, p, limit, c, init).Some? && PlaceAt(env, l, s, p, limit, c, init).value.1 == q
              && ValueAlike(env, l, PlaceAt(env, l, s, p, limit, c, init).value.0, v, before, after, 0)
    decreases l, 0
  {
    hide PlatformOk, ScalarAt, StringAt, MessageAt, MessageTrace, Shaped, LeafOk, StartsWith, Alike, Settled;
    if !l.MessageType? {
      LeafDecoded(env, l, s, p, limit, c, init);
      LeafDecoded(env, l, s, p, limit, z, init);
    } else if StringAt(s, p, limit).Some? {
      var (bytes, q) := StringAt(s, p, limit).value;
      StringEnds(s, p, limit);
      StartShaped(env, l.d, c, init);
      StartShaped(env, l.d, z, init);
      AlikeSizes(env, l.d, StartsWith(env, l.d, c, init), StartsWith(env, l.d, z, init), before, t);
      MessageRuns(env, l.d, s, q - |bytes|, q, Start(StartsWith(env, l.d, c, init)), Start(StartsWith(env, l.d, z, init)), before, t);
    }
  }

  /** A field of both runs: either both fail, or both go on from the same position. */
  ghost predicate FieldInStep(env: Platform, d: Descriptor, i: nat, wireType: nat, s: Bytes, p: nat, limit: nat, c: Progress,
          z: Progress, before: seq<Room>, t: Trace)
    requires DescriptorOk(d) && p <= limit <= |s| && i < |d.fields| && |c.rooms| == |z.rooms| == |t.fields| == |d.fields|
  {
    match FieldAt(env, d, i, wireType, s, p, limit, z)
    case None => FieldAt(env, d, i, wireType, s, p, limit, c).None?
    case Some((next, q)) =>
      match FieldAt(env, d, i, wireType, s, p, limit, c)
      case None => false
      case Some((other, r)) => r == q && Twins(env, d, other, next, before, FieldTrace(env, d, i, wireType, s, p, limit, z, t))
  }

  lemma AlikeSizes(env: Platform, d: Descriptor, c: seq<Room>, z: seq<Room>, before: seq<Room>, t: Trace)
    requires DescriptorOk(d) && Alike(env, d, c, z, before, t)
    ensures |c| == |z| == |before| == |t.fields| == |d.fields|
  {
  }

  lemma RoomsAlike(env: Platform, d: Descriptor, c: Progress, z: Progress, before: seq<Room>, t: Trace, i: nat)
    requires DescriptorOk(d) && ProgressOk(d, c) && ProgressOk(d, z) && Twins(env, d, c, z, before, t) && i < |d.fields|
    requires |before| == |d.fields| && Settled(env, d, before)
    ensures |c.rooms| == |z.rooms| == |before| == |t.fields| == |d.fields| && TypeOk(d.fields[i].ltype)
    ensures RoomShaped(d.fields[i], c.rooms[i]) && RoomShaped(d.fields[i], z.rooms[i])
    ensures RoomAlike(env, d.fields[i], c.rooms[i], z.rooms[i], before[i], t.fields[i]) && RoomSettled(env, d.fields[i], before[i])
    ensures c.seen == z.seen && c.fixedField == z.fixedField && c.fixedSize == z.fixedSize
    ensures c.fixedField == Some(i) ==> c.fixedSize <= t.fields[i].ever
  {
    hide RoomShaped, RoomAlike, RoomSettled;
  }

  // ---------- single values ----------

  lemma {:induction false} PayloadAlike(env: Platform, f: Field, c: Room, z: Room, before: Room, m: Met)
    requires PlatformOk(env) && TypeOk(f.ltype) && f.ltype.MessageType? && RoomShaped(f, c) && RoomShaped(f, z)
    requires RoomAlike(env, f, c, z, before, m) && RoomSettled(env, f, before) && !f.htype.Repeated? && !f.htype.FixedCount?
    ensures PlaceShaped(f.ltype, Payload(f, c)) && PlaceShaped(f.ltype, Payload(f, z)) && |m.inner| > 0
    ensures var d := f.ltype.d;
            && |RoomBase(f, before)| == |d.fields| && Settled(env, d, RoomBase(f, before))
            && Alike(env, d, StartsWith(env, d, Payload(f, c), false), StartsWith(env, d, Payload(f, z), false), RoomBase(f, before),
                     if f.htype.OneOf? && z == Member(None) then NoTrace(d) else m.inner[0])
  {
    hide PlatformOk, Alike, Shaped, Settled, NoTrace, ZeroRooms, Absorbs;
    var d := f.ltype.d;
    PayloadShaped(f, c);
    PayloadShaped(f, z);
    ShapedSize(d, Payload(f, c).rooms);
    ShapedSize(d, Payload(f, z).rooms);
    ZeroAlike(env, d);
  }

  lemma WithValueAlike(env: Platform, d: Descriptor, i: nat, c: Progress, z: Progress, before: seq<Room>, t: Trace, a: Place, b: Place, m: Met)
    requires DescriptorOk(d) && Twins(env, d, c, z, before, t) && i < |d.fields| && TypeOk(d.fields[i].ltype)
    requires |c.rooms| == |z.rooms| == |before| == |t.fields| == |d.fields|
    requires !d.fields[i].htype.Repeated? && !d.fields[i].htype.FixedCount?
    requires ValueAlike(env, d.fields[i].ltype, a, b, RoomBase(d.fields[i], before[i]), m, 0)
    requires m.ever == t.fields[i].ever && (d.fields[i].ltype.MessageType? ==> |m.inner| == 1)
    ensures Twins(env, d, c.(rooms := WithValue(d, c.rooms, i, a)), z.(rooms := WithValue(d, z.rooms, i, b)), before, Trace(t.fields[i := m]))
  {
    hide ValueAlike, AllAlike, AllHidden, AllUntouched, RoomBase, ItemBase, TypeOk;
    var ca, zb, next := WithValue(d, c.rooms, i, a), WithValue(d, z.rooms, i, b), t.fields[i := m];
    forall k | 0 <= k < |d.fields|
      ensures RoomAlike(env, d.fields[k], ca[k], zb[k], before[k], next[k])
    {
      assert RoomAlike(env, d.fields[k], c.rooms[k], z.rooms[k], before[k], t.fields[k]);
    }
  }

  lemma {:induction false} ValueRuns(env: Platform, d: Descriptor, i: nat, wireType: nat, s: Bytes, p: nat, limit: nat,
          c: Progress, z: Progress, before: seq<Room>, t: Trace)
    requires PlatformOk(env) && DescriptorOk(d) && ProgressOk(d, c) && ProgressOk(d, z) && p <= limit <= |s| && i < |d.fields|
    requires |before| == |d.fields| && Settled(env, d, before) && Twins(env, d, c, z, before, t) && |c.rooms| == |z.rooms| == |t.fields| == |d.fields|
    requires !d.fields[i].htype.Repeated? && !d.fields[i].htype.FixedCount?
    ensures FieldInStep(env, d, i, wireType, s, p, limit, c, z, before, t)
    decreases d, limit - p, 0
  {
    hide PlatformOk, DescriptorOk, ProgressOk, Shaped, Settled, PlaceShaped, PlaceAt, PlaceTrace, WithValue, RoomAlike,
         RoomShaped, RoomSettled, Twins, StartsWith, NoTrace, Alike, RoomBase, LeafOk;
    var f := d.fields[i];
    RoomsAlike(env, d, c, z, before, t, i);
    var base, m := RoomBase(f, before[i]), t.fields[i];
    PayloadShaped(f, c.rooms[i]);
    PayloadShaped(f, z.rooms[i]);
    var from := t;
    if f.ltype.MessageType? {
      PayloadAlike(env, f, c.rooms[i], z.rooms[i], before[i], m);
      from := if f.htype.OneOf? && z.rooms[i] == Member(None) then NoTrace(f.ltype.d) else m.inner[0];
    }
    PlaceRuns(env, f.ltype, s, p, limit, Payload(f, c.rooms[i]), Payload(f, z.rooms[i]), false, base, from);
    match PlaceAt(env, f.ltype, s, p, limit, Payload(f, z.rooms[i]), false)
    case None =>
    case Some((b, q)) =>
      var a := PlaceAt(env, f.ltype, s, p, limit, Payload(f, c.rooms[i]), false).value.0;
      WithValueAlike(env, d, i, c, z, before, t, a, b, ValueTrace(env, f, s, p, limit, z.rooms[i], m));
  }

  // ---------- arrays ----------

  /** The item that is decoded next. */
  lemma {:induction false} NextItemAlike(env: Platform, d: Descriptor, i: nat, c: Progress, z: Progress, before: seq<Room>, t: Trace, n: nat)
    requires PlatformOk(env) && DescriptorOk(d) && ProgressOk(d, c) && ProgressOk(d, z) && i < |d.fields| && d.fields[i].ltype.MessageType?
    requires |before| == |d.fields| && Settled(env, d, before) && Twins(env, d, c, z, before, t) && |c.rooms| == |z.rooms| == |t.fields| == |d.fields|
    requires d.fields[i].htype.Repeated? || d.fields[i].htype.FixedCount?
    requires n == CountOf(z, z.rooms[i]) < |PlacesOf(c.rooms[i])| && |PlacesOf(z.rooms[i])| == |PlacesOf(c.rooms[i])| == |PlacesOf(before[i])|
    ensures n < |t.fields[i].inner|
    ensures var e, l := d.fields[i].ltype.d, d.fields[i].ltype;
            && PlaceShaped(l, PlacesOf(c.rooms[i])[n]) && PlaceShaped(l, PlacesOf(z.rooms[i])[n])
            && Settled(env, e, ItemBase(env, l, PlacesOf(before[i])[n]))
            && Alike(env, e, ItemStart(env, e, PlacesOf(c.rooms[i])[n]), ItemStart(env, e, PlacesOf(z.rooms[i])[n]), ItemBase(env, l, PlacesOf(before[i])[n]), t.fields[i].inner[n])
  {
    hide PlatformOk, DescriptorOk, ProgressOk, Shaped, Settled, Twins, Alike, ItemStart, NoTrace, ItemAbsorbs, ClearPlace;
    var f := d.fields[i];
    RoomsAlike(env, d, c, z, before, t, i);
    var a, b, m := PlacesOf(c.rooms[i])[n], PlacesOf(z.rooms[i])[n], t.fields[i];
    assert PlaceShaped(f.ltype, a) && PlaceShaped(f.ltype, b);
    assert ItemSettled(env, f.ltype, PlacesOf(before[i])[n]);
    if f.htype.Repeated? {
      assert HiddenAlike(env, f.ltype, a, b, ItemBase(env, f.ltype, PlacesOf(before[i])[n]), m, n);
    } else {
      if n < m.ever {
        HideAlike(env, f.ltype, a, b, PlacesOf(before[i])[n], m, n);
      } else {
        PlaceAlikeAtFirst(env, f.ltype, a, b);
      }
    }
  }

  /** Items that take their places from the `n`-th on. */
  ghost predicate MoreAlike(env: Platform, l: LType, a: seq<Place>, b: seq<Place>, before: seq<Place>, m: Met, n: nat)
    requires TypeOk(l)
  {
    && |a| == |b| && n + |a| <= |before|
    && forall k: nat :: n <= k < n + |a| ==> ValueAlike(env, l, a[k - n], b[k - n], ItemBase(env, l, before[k]), m, k)
  }

  /** The traces of other items stay. */
  ghost predicate OnlyFrom(m: Met, next: Met, n: nat, size: nat) {
    && next.ever == Most(m.ever, n + size)
    && |next.inner| == |m.inner|
    && forall k :: 0 <= k < |m.inner| && !(n <= k < n + size) ==> next.inner[k] == m.inner[k]
  }

  lemma WithItemsAlike(env: Platform, d: Descriptor, i: nat, c: Progress, z: Progress, before: seq<Room>, t: Trace,
          a: seq<Place>, b: seq<Place>, m: Met)
    requires DescriptorOk(d) && Twins(env, d, c, z, before, t) && i < |d.fields| && TypeOk(d.fields[i].ltype)
    requires |c.rooms| == |z.rooms| == |before| == |t.fields| == |d.fields|
    requires d.fields[i].htype.Repeated? || (d.fields[i].htype.FixedCount? && c.fixedField == Some(i))
    requires RoomAlike(env, d.fields[i], c.rooms[i], z.rooms[i], before[i], t.fields[i])
    requires var n := CountOf(z, z.rooms[i]);
             && n + |a| <= |PlacesOf(c.rooms[i])| && |a| == |b| && MoreAlike(env, d.fields[i].ltype, a, b, PlacesOf(before[i]), m, n)
             && OnlyFrom(t.fields[i], m, n, |a|)
    ensures CountOf(c, c.rooms[i]) == CountOf(z, z.rooms[i]) && |PlacesOf(c.rooms[i])| == |PlacesOf(z.rooms[i])|
    ensures Twins(env, d, WithItems(c, i, a), WithItems(z, i, b), before, Trace(t.fields[i := m]))
  {
    hide DescriptorOk, ItemBase, Alike, AllAlike, AllHidden, AllUntouched, MoreAlike, WithItems, Spliced;
    var f, n := d.fields[i], CountOf(z, z.rooms[i]);
    ArrayAlike(env, f, c, z, before[i], t.fields[i], i);
    var cn, zn := WithItems(c, i, a), WithItems(z, i, b);
    SplicedItems(c, i, a);
    SplicedItems(z, i, b);
    ArrayAfterAlike(env, f, c.rooms[i], z.rooms[i], before[i], t.fields[i], n, a, b, m);
    AlikeElsewhere(env, d, i, c, z, before, t, cn.rooms, zn.rooms, m);
  }

  lemma SameInner(env: Platform, l: LType, a: Place, b: Place, before: Place, m: Met, next: Met, k: nat)
    requires TypeOk(l) && |m.inner| == |next.inner| && (k < |m.inner| ==> m.inner[k] == next.inner[k])
    ensures ValueAlike(env, l, a, b, ItemBase(env, l, before), m, k) == ValueAlike(env, l, a, b, ItemBase(env, l, before), next, k)
    ensures HiddenAlike(env, l, a, b, ItemBase(env, l, before), m, k) == HiddenAlike(env, l, a, b, ItemBase(env, l, before), next, k)
    ensures Untouched(l, a, before, m, k) == Untouched(l, a, before, next, k)
  {
    hide Alike, LeafOk, ItemStart, NoTrace, ItemBase;
  }

  /** Places with more of them decoded. */
  function Spliced(ps: seq<Place>, n: nat, more: seq<Place>): (r: seq<Place>)
    requires n + |more| <= |ps|
    ensures |r| == |ps| && forall k :: 0 <= k < |ps| ==> r[k] == if n <= k < n + |more| then more[k - n] else ps[k]
  {
    ps[..n] + more + ps[n + |more|..]
  }

  /** More items after the first `n`, which may take the place of items decoded earlier. */
  lemma SplicedAlike(env: Platform, l: LType, c: seq<Place>, z: seq<Place>, before: seq<Place>, m0: Met, n: nat, a: seq<Place>,
          b: seq<Place>, m: Met, size: nat, next: nat)
    requires TypeOk(l) && n <= size <= |c| == |z| == |before| && n + |a| <= |c| && |a| == |b|
    requires AllAlike(env, l, c, z, before, m0, size) && MoreAlike(env, l, a, b, before, m, n) && OnlyFrom(m0, m, n, |a|)
             && next == Most(size, n + |a|)
    ensures AllAlike(env, l, Spliced(c, n, a), Spliced(z, n, b), before, m, next)
  {
    hide ValueAlike, ItemBase;
    var x, y := Spliced(c, n, a), Spliced(z, n, b);
    forall k: nat | k < next
      ensures ValueAlike(env, l, x[k], y[k], ItemBase(env, l, before[k]), m, k)
    {
      if n <= k < n + |a| {
        assert ValueAlike(env, l, a[k - n], b[k - n], ItemBase(env, l, before[k]), m, k);
      } else {
        assert ValueAlike(env, l, c[k], z[k], ItemBase(env, l, before[k]), m0, k);
        SameInner(env, l, c[k], z[k], before[k], m0, m, k);
      }
    }
  }

  lemma SplicedHidden(env: Platform, l: LType, c: seq<Place>, z: seq<Place>, before: seq<Place>, m0: Met, n: nat, a: seq<Place>,
          b: seq<Place>, m: Met)
    requires TypeOk(l) && n + |a| <= |c| == |z| == |before| && |a| == |b|
    requires AllHidden(env, l, c, z, before, m0, n) && OnlyFrom(m0, m, n, |a|)
    ensures AllHidden(env, l, Spliced(c, n, a), Spliced(z, n, b), before, m, n + |a|)
  {
    hide HiddenAlike, ItemBase;
    var x, y := Spliced(c, n, a), Spliced(z, n, b);
    forall k: nat | n + |a| <= k < |x|
      ensures HiddenAlike(env, l, x[k], y[k], ItemBase(env, l, before[k]), m, k)
    {
      assert HiddenAlike(env, l, c[k], z[k], ItemBase(env, l, before[k]), m0, k);
      SameInner(env, l, c[k], z[k], before[k], m0, m, k);
    }
  }

  lemma SplicedUntouched(env: Platform, l: LType, c: seq<Place>, before: seq<Place>, m0: Met, n: nat, a: seq<Place>, m: Met)
    requires TypeOk(l) && n <= m0.ever <= |c| && m.ever <= |c| == |before| && n + |a| <= |c|
             && AllUntouched(l, c, before, m0, m0.ever) && OnlyFrom(m0, m, n, |a|)
    ensures AllUntouched(l, Spliced(c, n, a), before, m, m.ever)
  {
    hide Untouched, ItemBase;
    forall k: nat | m.ever <= k < |c|
      ensures Untouched(l, Spliced(c, n, a)[k], before[k], m, k)
    {
      assert Untouched(l, c[k], before[k], m0, k);
      SameInner(env, l, c[k], c[k], before[k], m0, m, k);
    }
  }

  lemma ArrayAfterAlike(env: Platform, f: Field, c: Room, z: Room, before: Room, m0: Met, n: nat, a: seq<Place>, b: seq<Place>, m: Met)
    requires TypeOk(f.ltype) && (f.htype.Repeated? || f.htype.FixedCount?) && RoomAlike(env, f, c, z, before, m0)
    requires (if c.Items? then n == c.count else n <= m0.ever) && n + |a| <= |PlacesOf(c)| && |a| == |b|
    requires MoreAlike(env, f.ltype, a, b, PlacesOf(before), m, n) && OnlyFrom(m0, m, n, |a|)
    ensures |PlacesOf(z)| == |PlacesOf(c)|
    ensures var x, y := Spliced(PlacesOf(c), n, a), Spliced(PlacesOf(z), n, b);
            if c.Items? then RoomAlike(env, f, Items(x, n + |a|), Items(y, n + |a|), before, m) else RoomAlike(env, f, Fixed(x), Fixed(y), before, m)
  {
    hide AllAlike, AllHidden, AllUntouched, MoreAlike, Spliced;
    if c.Items? {
      SplicedAlike(env, f.ltype, c.places, z.places, PlacesOf(before), m0, n, a, b, m, n, n + |a|);
      SplicedHidden(env, f.ltype, c.places, z.places, PlacesOf(before), m0, n, a, b, m);
    } else {
      SplicedAlike(env, f.ltype, c.places, z.places, PlacesOf(before), m0, n, a, b, m, m0.ever, m.ever);
      SplicedUntouched(env, f.ltype, c.places, PlacesOf(before), m0, n, a, m);
    }
  }

  lemma SplicedItems(st: Progress, i: nat, more: seq<Place>)
    requires i < |st.rooms| && CountOf(st, st.rooms[i]) + |more| <= |PlacesOf(st.rooms[i])|
    ensures var n, all := CountOf(st, st.rooms[i]), Spliced(PlacesOf(st.rooms[i]), CountOf(st, st.rooms[i]), more);
            WithItems(st, i, more) == if st.rooms[i].Items? then st.(rooms := st.rooms[i := Items(all, n + |more|)])
                                      else st.(rooms := st.rooms[i := Fixed(all)], fixedSize := n + |more|)
  {
  }

  lemma AlikeElsewhere(env: Platform, d: Descriptor, i: nat, c: Progress, z: Progress, before: seq<Room>, t: Trace, a: seq<Room>,
          b: seq<Room>, m: Met)
    requires DescriptorOk(d) && Alike(env, d, c.rooms, z.rooms, before, t) && i < |d.fields|
    requires |c.rooms| == |z.rooms| == |before| == |t.fields| == |d.fields|
    requires |a| == |b| == |d.fields| && a == c.rooms[i := a[i]] && b == z.rooms[i := b[i]]
    requires TypeOk(d.fields[i].ltype) && RoomAlike(env, d.fields[i], a[i], b[i], before[i], m)
    ensures Alike(env, d, a, b, before, Trace(t.fields[i := m]))
  {
    hide RoomAlike;
  }

  lemma PackedField(env: Platform, d: Descriptor, i: nat, wireType: nat, s: Bytes, p: nat, limit: nat, st: Progress)
    requires p <= limit <= |s| && i < |d.fields| && |st.rooms| == |d.fields| && wireType == WT_STRING && Packable(d.fields[i].ltype)
    requires (d.fields[i].htype.Repeated? || d.fields[i].htype.FixedCount?) && CountOf(st, st.rooms[i]) <= |PlacesOf(st.rooms[i])|
    ensures FieldAt(env, d, i, wireType, s, p, limit, st) ==
            match PackedAt(d.fields[i].ltype, s, p, limit, |PlacesOf(st.rooms[i])| - CountOf(st, st.rooms[i]))
            case None => None
            case Some((vs, q)) => Some((WithItems(st, i, Leaves(vs)), q))
  {
    hide PackedAt, WithItems;
  }

  lemma SingleItem(env: Platform, d: Descriptor, i: nat, wireType: nat, s: Bytes, p: nat, limit: nat, st: Progress)
    requires p <= limit <= |s| && i < |d.fields| && |st.rooms| == |d.fields| && !(wireType == WT_STRING && Packable(d.fields[i].ltype))
    requires (d.fields[i].htype.Repeated? || d.fields[i].htype.FixedCount?) && CountOf(st, st.rooms[i]) <= |PlacesOf(st.rooms[i])|
    ensures var n, ps := CountOf(st, st.rooms[i]), PlacesOf(st.rooms[i]);
            FieldAt(env, d, i, wireType, s, p, limit, st) ==
            if n == |ps| then None
            else
              match PlaceAt(env, d.fields[i].ltype, s, p, limit, ps[n], true)
              case None => None
              case Some((v, q)) => Some((WithItems(st, i, [v]), q))
  {
    hide PlaceAt, WithItems;
  }

  lemma {:induction false} PackedRuns(env: Platform, d: Descriptor, i: nat, wireType: nat, s: Bytes, p: nat, limit: nat,
          c: Progress, z: Progress, before: seq<Room>, t: Trace)
    requires PlatformOk(env) && DescriptorOk(d) && ProgressOk(d, c) && ProgressOk(d, z) && p <= limit <= |s| && i < |d.fields|
    requires |before| == |d.fields| && Settled(env, d, before) && Twins(env, d, c, z, before, t) && |c.rooms| == |z.rooms| == |t.fields| == |d.fields|
    requires d.fields[i].htype.Repeated? || (d.fields[i].htype.FixedCount? && c.fixedField == Some(i))
    requires wireType == WT_STRING && Packable(d.fields[i].ltype)
    ensures FieldInStep(env, d, i, wireType, s, p, limit, c, z, before, t)
  {
    hide PlatformOk, DescriptorOk, ProgressOk, Shaped, Settled, PlaceAt, PackedAt, WithItems, Twins, Alike, PlaceShaped,
         RoomSettled, FieldAt, CountOf, PlacesOf, RoomAlike;
    var f, m := d.fields[i], t.fields[i];
    RoomsAlike(env, d, c, z, before, t, i);
    ArrayAlike(env, f, c, z, before[i], m, i);
    PackedField(env, d, i, wireType, s, p, limit, c);
    PackedField(env, d, i, wireType, s, p, limit, z);
    var n, ps := CountOf(z, z.rooms[i]), PlacesOf(z.rooms[i]);
    PackedAtInBounds(f.ltype, s, p, limit, |ps| - n);
    match PackedAt(f.ltype, s, p, limit, |ps| - n)
    case None =>
    case Some((vs, q)) =>
      LeavesAreShaped(f.ltype, vs);
      assert ItemTrace(env, f, i, wireType, s, p, limit, z, m) == Met(Most(m.ever, n + |vs|), m.inner);
      WithItemsAlike(env, d, i, c, z, before, t, Leaves(vs), Leaves(vs), Met(Most(m.ever, n + |vs|), m.inner));
  }

  lemma ArrayAlike(env: Platform, f: Field, c: Progress, z: Progress, before: Room, m: Met, i: nat)
    requires i < |c.rooms| && i < |z.rooms| && TypeOk(f.ltype) && RoomAlike(env, f, c.rooms[i], z.rooms[i], before, m)
    requires f.htype.Repeated? || (f.htype.FixedCount? && c.fixedSize <= m.ever)
    requires c.fixedSize == z.fixedSize
    ensures CountOf(c, c.rooms[i]) == CountOf(z, z.rooms[i]) <= |PlacesOf(c.rooms[i])|
    ensures |PlacesOf(c.rooms[i])| == |PlacesOf(z.rooms[i])| == |PlacesOf(before)|
  {
    hide AllAlike, AllHidden, AllUntouched;
  }

  lemma {:induction false} ItemRuns(env: Platform, d: Descriptor, i: nat, wireType: nat, s: Bytes, p: nat, limit: nat,
          c: Progress, z: Progress, before: seq<Room>, t: Trace)
    requires PlatformOk(env) && DescriptorOk(d) && ProgressOk(d, c) && ProgressOk(d, z) && p <= limit <= |s| && i < |d.fields|
    requires |before| == |d.fields| && Settled(env, d, before) && Twins(env, d, c, z, before, t) && |c.rooms| == |z.rooms| == |t.fields| == |d.fields|
    requires d.fields[i].htype.Repeated? || (d.fields[i].htype.FixedCount? && c.fixedField == Some(i))
    requires !(wireType == WT_STRING && Packable(d.fields[i].ltype))
    ensures FieldInStep(env, d, i, wireType, s, p, limit, c, z, before, t)
    decreases d, limit - p, 0
  {
    hide PlatformOk, DescriptorOk, ProgressOk, Shaped, Settled, PlaceAt, PlaceTrace, WithItems, Twins, Alike, PlaceShaped,
         RoomSettled, RoomAlike, StartsWith, ItemStart, RoomShaped, LeafOk, FieldAt, CountOf, PlacesOf;
    var f, m := d.fields[i], t.fields[i];
    RoomsAlike(env, d, c, z, before, t, i);
    ArrayAlike(env, f, c, z, before[i], m, i);
    SingleItem(env, d, i, wireType, s, p, limit, c);
    SingleItem(env, d, i, wireType, s, p, limit, z);
    var n := CountOf(z, z.rooms[i]);
    if n < |PlacesOf(z.rooms[i])| {
      var a, b, base := PlacesOf(c.rooms[i])[n], PlacesOf(z.rooms[i])[n], ItemBase(env, f.ltype, PlacesOf(before[i])[n]);
      ItemShaped(f, c.rooms[i], n);
      ItemShaped(f, z.rooms[i], n);
      var from := t;
      if f.ltype.MessageType? {
        NextItemAlike(env, d, i, c, z, before, t, n);
        StartIsItemStart(env, f.ltype.d, a);
        StartIsItemStart(env, f.ltype.d, b);
        from := m.inner[n];
      }
      PlaceRuns(env, f.ltype, s, p, limit, a, b, true, base, from);
      match PlaceAt(env, f.ltype, s, p, limit, b, true)
      case None =>
      case Some((v, q)) =>
        WithItemsAlike(env, d, i, c, z, before, t, [PlaceAt(env, f.ltype, s, p, limit, a, true).value.0], [v], ItemTrace(env, f, i, wireType, s, p, limit, z, m));
    }
  }

  lemma StartIsItemStart(env: Platform, d: Descriptor, p: Place)
    ensures StartsWith(env, d, p, true) == ItemStart(env, d, p)
  {
  }

  lemma ItemShaped(f: Field, r: Room, k: nat)
    requires TypeOk(f.ltype) && RoomShaped(f, r) && k < |PlacesOf(r)|
    ensures PlaceShaped(f.ltype, PlacesOf(r)[k])
  {
    hide PlaceShaped;
  }

  lemma {:induction false} FieldRuns(env: Platform, d: Descriptor, i: nat, wireType: nat, s: Bytes, p: nat, limit: nat,
          c: Progress, z: Progress, before: seq<Room>, t: Trace)
    requires PlatformOk(env) && DescriptorOk(d) && ProgressOk(d, c) && ProgressOk(d, z) && p <= limit <= |s| && i < |d.fields|
    requires |before| == |d.fields| && Settled(env, d, before) && Twins(env, d, c, z, before, t) && |c.rooms| == |z.rooms| == |t.fields| == |d.fields|
    requires d.fields[i].htype.FixedCount? ==> c.fixedField == Some(i)
    ensures FieldInStep(env, d, i, wireType, s, p, limit, c, z, before, t)
    decreases d, limit - p, 1
  {
    hide PlatformOk, DescriptorOk, ProgressOk, Shaped, Settled, Twins, FieldAt, FieldTrace, FieldInStep;
    var f := d.fields[i];
    if !f.htype.Repeated? && !f.htype.FixedCount? {
      ValueRuns(env, d, i, wireType, s, p, limit, c, z, before, t);
    } else if wireType == WT_STRING && Packable(f.ltype) {
      PackedRuns(env, d, i, wireType, s, p, limit, c, z, before, t);
    } else {
      ItemRuns(env, d, i, wireType, s, p, limit, c, z, before, t);
    }
  }

  // ---------- messages ----------

  lemma NotedAlike(env: Platform, d: Descriptor, i: nat, c: Progress, z: Progress, before: seq<Room>, t: Trace)
    requires DescriptorOk(d) && Twins(env, d, c, z, before, t) && i < |d.fields|
    ensures Noted(d, i, c).Some? == Noted(d, i, z).Some?
    ensures Noted(d, i, z).Some? ==> Twins(env, d, Noted(d, i, c).value, Noted(d, i, z).value, before, t)
    ensures |c.rooms| == |z.rooms| == |before| == |t.fields| == |d.fields|
  {
    hide RoomAlike, DescriptorOk;
  }

  lemma FinishedAlike(env: Platform, d: Descriptor, c: Progress, z: Progress, before: seq<Room>, t: Trace)
    requires DescriptorOk(d) && Twins(env, d, c, z, before, t)
    ensures Finished(d, c) == if Finished(d, z).Some? then Some(c.rooms) else None
    ensures Finished(d, z).Some? ==> Finished(d, z) == Some(z.rooms)
    ensures Alike(env, d, c.rooms, z.rooms, before, t) && |c.rooms| == |z.rooms| == |before| == |t.fields| == |d.fields|
  {
    hide RoomAlike, DescriptorOk;
  }

  /** Both runs come across the same fields and succeed or fail together; in the end they are still alike. */
  lemma {:induction false} MessageRuns(env: Platform, d: Descriptor, s: Bytes, p: nat, limit: nat, c: Progress, z: Progress,
          before: seq<Room>, t: Trace)
    requires PlatformOk(env) && DescriptorOk(d) && ProgressOk(d, c) && ProgressOk(d, z) && p <= limit <= |s|
    requires |before| == |d.fields| && Settled(env, d, before) && Twins(env, d, c, z, before, t) && |c.rooms| == |z.rooms| == |t.fields| == |d.fields|
    ensures FoundIn(env, d, s, p, limit, c) == FoundIn(env, d, s, p, limit, z)
    ensures match MessageAt(env, d, s, p, limit, z)
            case None => MessageAt(env, d, s, p, limit, c).None?
            case Some(b) =>
              && MessageAt(env, d, s, p, limit, c).Some?
              && Alike(env, d, MessageAt(env, d, s, p, limit, c).value, b, before, MessageTrace(env, d, s, p, limit, z, t))
    decreases d, limit - p, 2
  {
    hide PlatformOk, DescriptorOk, ProgressOk, Shaped, Settled, TagAt, FindField, PastUnknown, Noted, FieldAt, FieldTrace, Finished, Alike, Twins;
    FinishedAlike(env, d, c, z, before, t);
    if p < limit {
      match TagAt(s, p, limit)
      case EndOfMessage =>
      case BadTag =>
      case TagRead(number, wireType, q) =>
        match FindField(d, number, |d.fields|)
        case None =>
          if PastUnknown(d, number, wireType, s, q, limit).Some? {
            MessageRuns(env, d, s, PastUnknown(d, number, wireType, s, q, limit).value, limit, c, z, before, t);
          }
        case Some(i) =>
          NotedAlike(env, d, i, c, z, before, t);
          match Noted(d, i, z)
          case None =>
          case Some(noted) =>
            var other := Noted(d, i, c).value;
            NotedInBounds(d, i, c);
            NotedInBounds(d, i, z);
            FieldRuns(env, d, i, wireType, s, q, limit, other, noted, before, t);
            FieldDecoded(env, d, i, wireType, s, q, limit, other);
            FieldDecoded(env, d, i, wireType, s, q, limit, noted);
            match FieldAt(env, d, i, wireType, s, q, limit, noted)
            case None =>
            case Some((next, r)) =>
              MessageRuns(env, d, s, r, limit, FieldAt(env, d, i, wireType, s, q, limit, other).value.0, next, before, FieldTrace(env, d, i, wireType, s, q, limit, noted, t));
    }
  }
}
