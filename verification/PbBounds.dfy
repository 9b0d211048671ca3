/** Whatever bytes the decoder accepts, everything it has decoded of the message stays within its bounds:
    arrays within their space, strings ended, integers in range, one member to a union. The items of
    fixed-count arrays that were not on the wire stay as their memory was when the message was set to
    defaults, and the message is within bounds exactly when they are. */
module PbBounds {
  import opened History
  import opened Coding
  import opened Protobuf
  import opened PbMemory
  import opened PbDecode
  import opened PbShapes
  import opened PbClearing
  import opened PbTwins

  // ---------- in bounds exactly when the items left alone are ----------

  /** Every item that was never decoded, of a fixed-count array that is present, was in bounds before. What
      is present is as in a decoding into cleared memory. */
  ghost predicate Fits(env: Platform, d: Descriptor, z: seq<Room>, before: seq<Room>, t: Trace)
    requires DescriptorOk(d) && |z| == |before| == |t.fields| == |d.fields|
    decreases d
  {
    forall i :: 0 <= i < |z| ==> RoomFits(env, d.fields[i], z[i], before[i], t.fields[i])
  }

  /** A place with a decoded value. */
  ghost predicate PlaceFits(env: Platform, l: LType, z: Place, base: seq<Room>, m: Met, k: nat)
    requires TypeOk(l)
    decreases l
  {
    if l.MessageType? && z.Struct? && k < |m.inner| && |z.rooms| == |base| == |m.inner[k].fields| == |l.d.fields| then
      Fits(env, l.d, z.rooms, base, m.inner[k])
    else true
  }

  ghost predicate RoomFits(env: Platform, f: Field, z: Room, before: Room, m: Met)
    requires TypeOk(f.ltype)
    decreases f
  {
    match z
    case Single(p) => PlaceFits(env, f.ltype, p, RoomBase(f, before), m, 0)
    case Flagged(has, p) => has ==> PlaceFits(env, f.ltype, p, RoomBase(f, before), m, 0)
    case Member(None) => true
    case Member(Some(p)) => PlaceFits(env, f.ltype, p, RoomBase(f, before), m, 0)
    case Items(ps, count) =>
      forall k: nat :: k < count && k < |ps| && k < |PlacesOf(before)| ==> PlaceFits(env, f.ltype, ps[k], ItemBase(env, f.ltype, PlacesOf(before)[k]), m, k)
    case Fixed(ps) =>
      forall k: nat :: k < |ps| && k < |PlacesOf(before)| ==>
        if k < m.ever then PlaceFits(env, f.ltype, ps[k], ItemBase(env, f.ltype, PlacesOf(before)[k]), m, k)
        else ValueOk(f.ltype, ValueIn(PlacesOf(before)[k]))
  }

  lemma {:induction false} PlaceInBounds(env: Platform, l: LType, c: Place, z: Place, base: seq<Room>, m: Met, k: nat)
    requires TypeOk(l) && PlaceShaped(l, c) && ValueAlike(env, l, c, z, base, m, k)
    ensures ValueOk(l, ValueIn(c)) <==> PlaceFits(env, l, z, base, m, k)
    decreases l
  {
    hide Shaped, Alike, MessageOk, MessageIn, Fits;
    if l.MessageType? {
      AlikeSizes(env, l.d, c.rooms, z.rooms, base, m.inner[k]);
      RoomsInBounds(env, l.d, c.rooms, z.rooms, base, m.inner[k]);
    } else {
      LeafOkIsShaped(l, c);
    }
  }

  lemma {:induction false} RoomInBounds(env: Platform, f: Field, c: Room, z: Room, before: Room, m: Met)
    requires TypeOk(f.ltype) && RoomShaped(f, c) && RoomAlike(env, f, c, z, before, m)
    ensures SlotOk(f, SlotIn(c)) <==> RoomFits(env, f, z, before, m)
    decreases f
  {
    hide PlaceShaped, ValueAlike, HiddenAlike, ValueOk, ValueIn, PlaceFits, RoomBase, ItemBase;
    var l := f.ltype;
    if c.Items? {
      forall k: nat | k < c.count
        ensures ValueOk(l, ValueIn(c.places[k])) <==> PlaceFits(env, l, z.places[k], ItemBase(env, l, PlacesOf(before)[k]), m, k)
      {
        PlaceInBounds(env, l, c.places[k], z.places[k], ItemBase(env, l, PlacesOf(before)[k]), m, k);
      }
      assert forall k: nat :: k < c.count ==> SlotIn(c).values[k] == ValueIn(c.places[k]);
    } else if c.Fixed? {
      forall k: nat | k < m.ever
        ensures ValueOk(l, ValueIn(c.places[k])) <==> PlaceFits(env, l, z.places[k], ItemBase(env, l, PlacesOf(before)[k]), m, k)
      {
        PlaceInBounds(env, l, c.places[k], z.places[k], ItemBase(env, l, PlacesOf(before)[k]), m, k);
      }
      assert forall k: nat :: k < |c.places| ==> SlotIn(c).values[k] == ValueIn(c.places[k]);
    } else if !c.Member? || c.option.Some? {
      PlaceInBounds(env, l, PlaceOf(c, l), PlaceOf(z, l), RoomBase(f, before), m, 0);
    }
  }

  lemma {:induction false} RoomsInBounds(env: Platform, d: Descriptor, c: seq<Room>, z: seq<Room>, before: seq<Room>, t: Trace)
    requires DescriptorOk(d) && Shaped(d, c) && Alike(env, d, c, z, before, t)
    ensures |z| == |before| == |t.fields| == |d.fields|
    ensures MessageOk(d, MessageIn(c)) <==> Fits(env, d, z, before, t)
    decreases d
  {
    hide RoomShaped, RoomAlike, RoomFits, SlotOk, TypeOk;
    forall i | 0 <= i < |c|
      ensures SlotOk(d.fields[i], MessageIn(c)[i]) <==> RoomFits(env, d.fields[i], z[i], before[i], t.fields[i])
    {
      assert RoomShaped(d.fields[i], c[i]) && RoomAlike(env, d.fields[i], c[i], z[i], before[i], t.fields[i]);
      RoomInBounds(env, d.fields[i], c[i], z[i], before[i], t.fields[i]);
    }
    MembersIn(d, c);
  }

  lemma MembersIn(d: Descriptor, c: seq<Room>)
    requires DescriptorOk(d) && Shaped(d, c)
    ensures forall i, j :: 0 <= i < j < |c| && d.fields[i].htype.OneOf? && d.fields[i].htype == d.fields[j].htype ==>
              && MessageIn(c)[i].Maybe? && MessageIn(c)[j].Maybe?
              && (MessageIn(c)[i].option.None? || MessageIn(c)[j].option.None?)
  {
    hide PlaceShaped, AllShaped, TypeOk, ValueIn;
    forall i, j | 0 <= i < j < |c| && d.fields[i].htype.OneOf? && d.fields[i].htype == d.fields[j].htype
      ensures MessageIn(c)[i].Maybe? && MessageIn(c)[j].Maybe? && (MessageIn(c)[i].option.None? || MessageIn(c)[j].option.None?)
    {
      assert RoomShaped(d.fields[i], c[i]) && RoomShaped(d.fields[j], c[j]);
    }
  }

  // ---------- decoding a buffer ----------

  /** What is present after decoding, and which items were decoded: the bytes alone decide. */
  function OnZeros(env: Platform, d: Descriptor, s: Bytes): Option<seq<Room>> {
    MessageAt(env, d, s, 0, |s|, Start(ZeroRooms(d)))
  }

  function TraceOf(env: Platform, d: Descriptor, s: Bytes): (t: Trace)
    ensures |t.fields| == |d.fields|
  {
    MessageTrace(env, d, s, 0, |s|, Start(ZeroRooms(d)), NoTrace(d))
  }

  /** The fields that are on the wire, in the message itself. */
  function OnWire(env: Platform, d: Descriptor, s: Bytes): set<nat> {
    FoundIn(env, d, s, 0, |s|, Start(ZeroRooms(d)))
  }

  lemma StartTwins(env: Platform, d: Descriptor, memory: seq<Room>)
    requires PlatformOk(env) && DescriptorOk(d) && Shaped(d, memory)
    ensures |memory| == |d.fields| && Settled(env, d, Defaults(env, d, memory))
    ensures ProgressOk(d, Start(Defaults(env, d, memory))) && ProgressOk(d, Start(ZeroRooms(d)))
    ensures Twins(env, d, Start(Defaults(env, d, memory)), Start(ZeroRooms(d)), Defaults(env, d, memory), NoTrace(d))
  {
    hide PlatformOk, Shaped, Settled, Alike, Defaults, ZeroRooms, NoTrace;
    ZeroRoomsShaped(d);
    ShapedSize(d, memory);
    ShapedSize(d, ZeroRooms(d));
    DefaultsShaped(env, d, memory);
    DefaultsSettled(env, d, memory);
    AlikeAtFirst(env, d, memory, ZeroRooms(d));
    DefaultZeroRooms(env, d);
  }

  /** Whether a buffer is accepted does not depend on the memory, and an accepted message is in bounds
      exactly when every item of a fixed-count array that was not decoded is. */
  lemma DecodedInBounds(env: Platform, d: Descriptor, s: Bytes, memory: seq<Room>)
    requires PlatformOk(env) && DescriptorOk(d) && Shaped(d, memory)
    ensures |memory| == |d.fields|
    ensures Decoded(env, d, s, memory).Some? <==> OnZeros(env, d, s).Some?
    ensures Decoded(env, d, s, memory).Some? ==>
              && Shaped(d, Decoded(env, d, s, memory).value)
              && (MessageOk(d, MessageIn(Decoded(env, d, s, memory).value)) <==>
                  Fits(env, d, OnZeros(env, d, s).value, Defaults(env, d, memory), TraceOf(env, d, s)))
  {
    hide PlatformOk, DescriptorOk, Shaped, Settled, Alike, Defaults, ZeroRooms, NoTrace, MessageAt, MessageTrace, Twins,
         ProgressOk, MessageOk, MessageIn, Fits, FoundIn;
    StartTwins(env, d, memory);
    MessageRuns(env, d, s, 0, |s|, Start(Defaults(env, d, memory)), Start(ZeroRooms(d)), Defaults(env, d, memory), NoTrace(d));
    MessageDecoded(env, d, s, 0, |s|, Start(Defaults(env, d, memory)));
    if Decoded(env, d, s, memory).Some? {
      RoomsInBounds(env, d, Decoded(env, d, s, memory).value, OnZeros(env, d, s).value, Defaults(env, d, memory), TraceOf(env, d, s));
    }
  }

  // ---------- memory that is in bounds from the start ----------

  /** Every item of every fixed-count array is in bounds, also those in messages that are not present. */
  ghost predicate Clean(env: Platform, d: Descriptor, rooms: seq<Room>)
    requires DescriptorOk(d) && |rooms| == |d.fields|
    decreases d
  {
    forall i :: 0 <= i < |rooms| ==> RoomClean(env, d.fields[i], rooms[i])
  }

  ghost predicate ItemClean(env: Platform, l: LType, p: Place)
    requires TypeOk(l)
    decreases l
  {
    l.MessageType? ==> Clean(env, l.d, ItemStart(env, l.d, p))
  }

  ghost predicate RoomClean(env: Platform, f: Field, r: Room)
    requires TypeOk(f.ltype)
    decreases f
  {
    match f.htype
    case OneOf(_) => true
    case Repeated(_) => forall k: nat :: k < |PlacesOf(r)| ==> ItemClean(env, f.ltype, PlacesOf(r)[k])
    case FixedCount(_) => forall k: nat :: k < |PlacesOf(r)| ==> ValueOk(f.ltype, ValueIn(PlacesOf(r)[k])) && ItemClean(env, f.ltype, PlacesOf(r)[k])
    case _ => f.ltype.MessageType? ==> Clean(env, f.ltype.d, RoomsOf(f.ltype.d, PlaceOf(r, f.ltype)))
  }

  lemma {:induction false} ZeroIsClean(env: Platform, d: Descriptor)
    requires PlatformOk(env) && DescriptorOk(d)
    ensures Clean(env, d, ZeroRooms(d))
    decreases d
  {
    hide PlatformOk, Defaults, ValueOk, ValueIn;
    forall i | 0 <= i < |d.fields|
      ensures RoomClean(env, d.fields[i], ZeroRoom(d.fields[i]))
    {
      var l := d.fields[i].ltype;
      assert TypeOk(l);
      ZeroShaped(l);
      if l.MessageType? {
        ZeroIsClean(env, l.d);
        DefaultZeroRooms(env, l.d);
      }
    }
  }

  lemma {:induction false} CleanFits(env: Platform, d: Descriptor, c: seq<Room>, z: seq<Room>, before: seq<Room>, t: Trace)
    requires PlatformOk(env) && DescriptorOk(d) && Alike(env, d, c, z, before, t) && |before| == |d.fields| && Clean(env, d, before)
    ensures |z| == |before| == |t.fields| == |d.fields| && Fits(env, d, z, before, t)
    decreases d
  {
    hide PlatformOk, RoomAlike, RoomClean, RoomFits;
    forall i | 0 <= i < |z|
      ensures RoomFits(env, d.fields[i], z[i], before[i], t.fields[i])
    {
      assert RoomAlike(env, d.fields[i], c[i], z[i], before[i], t.fields[i]) && RoomClean(env, d.fields[i], before[i]);
      CleanRoomFits(env, d.fields[i], c[i], z[i], before[i], t.fields[i]);
    }
  }

  lemma {:induction false} CleanPlaceFits(env: Platform, l: LType, c: Place, z: Place, base: seq<Room>, m: Met, k: nat)
    requires PlatformOk(env) && TypeOk(l) && ValueAlike(env, l, c, z, base, m, k) && (l.MessageType? ==> |base| == |l.d.fields| && Clean(env, l.d, base))
    ensures PlaceFits(env, l, z, base, m, k)
    decreases l
  {
    hide PlatformOk, Alike, Clean, Fits;
    if l.MessageType? {
      CleanFits(env, l.d, c.rooms, z.rooms, base, m.inner[k]);
    }
  }

  lemma {:induction false} CleanRoomFits(env: Platform, f: Field, c: Room, z: Room, before: Room, m: Met)
    requires PlatformOk(env) && TypeOk(f.ltype) && RoomAlike(env, f, c, z, before, m) && RoomClean(env, f, before)
    ensures RoomFits(env, f, z, before, m)
    decreases f
  {
    hide PlatformOk, ValueAlike, HiddenAlike, PlaceFits, ValueOk, ValueIn, ItemStart, Clean, ZeroRooms, RoomsOf;
    var l := f.ltype;
    if c.Items? || c.Fixed? {
      var n := if c.Items? then c.count else m.ever;
      forall k: nat | k < n
        ensures PlaceFits(env, l, PlacesOf(z)[k], ItemBase(env, l, PlacesOf(before)[k]), m, k)
      {
        assert ItemClean(env, l, PlacesOf(before)[k]);
        CleanPlaceFits(env, l, PlacesOf(c)[k], PlacesOf(z)[k], ItemBase(env, l, PlacesOf(before)[k]), m, k);
      }
    } else if !c.Member? || c.option.Some? {
      if l.MessageType? && c.Member? {
        ZeroIsClean(env, l.d);
      }
      CleanPlaceFits(env, l, PlaceOf(c, l), PlaceOf(z, l), RoomBase(f, before), m, 0);
    }
  }

  /** When every item of a fixed-count array is in bounds once the message has been set to defaults, every
      message that is accepted is in bounds, whatever is on the wire. */
  lemma CleanInBounds(env: Platform, d: Descriptor, s: Bytes, memory: seq<Room>)
    requires PlatformOk(env) && DescriptorOk(d) && Shaped(d, memory) && |memory| == |d.fields| && Clean(env, d, Defaults(env, d, memory))
    ensures Decoded(env, d, s, memory).Some? ==> MessageOk(d, MessageIn(Decoded(env, d, s, memory).value))
  {
    hide PlatformOk, DescriptorOk, Shaped, Settled, Alike, Defaults, ZeroRooms, NoTrace, MessageAt, MessageTrace, Twins,
         ProgressOk, MessageOk, MessageIn, Fits, FoundIn, Clean;
    StartTwins(env, d, memory);
    MessageRuns(env, d, s, 0, |s|, Start(Defaults(env, d, memory)), Start(ZeroRooms(d)), Defaults(env, d, memory), NoTrace(d));
    DecodedInBounds(env, d, s, memory);
    if Decoded(env, d, s, memory).Some? {
      CleanFits(env, d, Decoded(env, d, s, memory).value, OnZeros(env, d, s).value, Defaults(env, d, memory), TraceOf(env, d, s));
    }
  }

  /** Into memory that was cleared before the call, every message that is accepted is in bounds. */
  lemma ClearedInBounds(env: Platform, d: Descriptor, s: Bytes)
    requires PlatformOk(env) && DescriptorOk(d)
    ensures Decoded(env, d, s, ZeroRooms(d)).Some? ==> MessageOk(d, MessageIn(Decoded(env, d, s, ZeroRooms(d)).value))
  {
    hide PlatformOk, DescriptorOk, Shaped, Clean, Defaults, ZeroRooms, Decoded, MessageOk, MessageIn;
    ZeroRoomsShaped(d);
    DefaultZeroRooms(env, d);
    ZeroIsClean(env, d);
    CleanInBounds(env, d, s, ZeroRooms(d));
  }

  // ---------- descriptors without fixed-count arrays ----------

  ghost predicate NoFixedCounts(d: Descriptor)
    decreases d
  {
    forall i :: 0 <= i < |d.fields| ==> FieldWithoutFixedCounts(d.fields[i])
  }

  ghost predicate FieldWithoutFixedCounts(f: Field)
    decreases f
  {
    (f.htype.FixedCount? ==> f.htype.count == 0) && (f.ltype.MessageType? ==> NoFixedCounts(f.ltype.d))
  }

  lemma {:induction false} NothingToClean(env: Platform, d: Descriptor, rooms: seq<Room>)
    requires PlatformOk(env) && DescriptorOk(d) && NoFixedCounts(d) && Shaped(d, rooms)
    ensures |rooms| == |d.fields| && Clean(env, d, rooms)
    decreases d
  {
    hide PlatformOk, PlaceShaped, AllShaped, RoomClean, FieldWithoutFixedCounts;
    forall i | 0 <= i < |rooms|
      ensures RoomClean(env, d.fields[i], rooms[i])
    {
      assert RoomShaped(d.fields[i], rooms[i]) && FieldWithoutFixedCounts(d.fields[i]);
      RoomWithoutFixedCounts(env, d.fields[i], rooms[i]);
    }
  }

  lemma {:induction false} RoomWithoutFixedCounts(env: Platform, f: Field, r: Room)
    requires PlatformOk(env) && TypeOk(f.ltype) && FieldWithoutFixedCounts(f) && RoomShaped(f, r)
    ensures RoomClean(env, f, r)
    decreases f
  {
    hide PlatformOk, Shaped, Clean, NoFixedCounts, Defaults, ValueOk, ValueIn;
    var l := f.ltype;
    if l.MessageType? {
      if r.Items? {
        forall k: nat | k < |r.places|
          ensures ItemClean(env, l, r.places[k])
        {
          assert PlaceShaped(l, r.places[k]);
          ShapedSize(l.d, r.places[k].rooms);
          DefaultsShaped(env, l.d, r.places[k].rooms);
          NothingToClean(env, l.d, Defaults(env, l.d, r.places[k].rooms));
        }
      } else if r.Single? || r.Flagged? {
        NothingToClean(env, l.d, r.place.rooms);
      }
    }
  }

  /** Without fixed-count arrays every message that is accepted is in bounds, whatever memory held. */
  lemma DecodedWithoutFixedCounts(env: Platform, d: Descriptor, s: Bytes, memory: seq<Room>)
    requires PlatformOk(env) && DescriptorOk(d) && NoFixedCounts(d) && Shaped(d, memory) && |memory| == |d.fields|
    ensures Decoded(env, d, s, memory).Some? ==> MessageOk(d, MessageIn(Decoded(env, d, s, memory).value))
  {
    hide PlatformOk, DescriptorOk, Shaped, Clean, Defaults, NoFixedCounts, Decoded, MessageOk, MessageIn;
    DefaultsShaped(env, d, memory);
    NothingToClean(env, d, Defaults(env, d, memory));
    CleanInBounds(env, d, s, memory);
  }

  // ---------- which items are left alone ----------

  /** How much of the fixed-count array in field `i` has been decoded, if its tag has been met. */
  ghost predicate Replaced(d: Descriptor, st: Progress, t: Trace, i: nat, met: bool, ever: nat)
    requires i < |d.fields| && d.fields[i].htype.FixedCount? && |t.fields| == |d.fields|
  {
    var count, e := d.fields[i].htype.count, t.fields[i].ever;
    if st.fixedField == Some(i) then met && st.fixedSize <= count && (e == count || e == Most(ever, st.fixedSize))
    else e == if met then count else ever
  }

  lemma ReplacedNoted(d: Descriptor, st: Progress, t: Trace, i: nat, j: nat, met: bool, ever: nat)
    requires i < |d.fields| && j < |d.fields| && d.fields[i].htype.FixedCount? && |t.fields| == |d.fields| && ever <= d.fields[i].htype.count
    requires Replaced(d, st, t, i, met, ever) && Noted(d, j, st).Some?
    ensures Noted(d, j, st).value.rooms == st.rooms && Replaced(d, Noted(d, j, st).value, t, i, met || i == j, ever)
    ensures d.fields[j].htype.FixedCount? ==> Noted(d, j, st).value.fixedField == Some(j)
  {
  }

  lemma ReplacedAfter(env: Platform, d: Descriptor, i: nat, j: nat, wireType: nat, s: Bytes, p: nat, limit: nat, st: Progress,
          t: Trace, met: bool, ever: nat)
    requires p <= limit <= |s| && |st.rooms| == |t.fields| == |d.fields| && i < |d.fields| && j < |d.fields|
    requires d.fields[i].htype.FixedCount? && ever <= d.fields[i].htype.count && Replaced(d, st, t, i, met, ever) && (i == j ==> met)
    requires st.rooms[i].Fixed? && |st.rooms[i].places| == d.fields[i].htype.count
    requires d.fields[j].htype.FixedCount? ==> st.fixedField == Some(j) && st.rooms[j].Fixed?
    requires d.fields[j].htype.Repeated? ==> st.rooms[j].Items?
    requires FieldAt(env, d, j, wireType, s, p, limit, st).Some?
    ensures var next := FieldAt(env, d, j, wireType, s, p, limit, st).value.0;
            && Replaced(d, next, FieldTrace(env, d, j, wireType, s, p, limit, st, t), i, met, ever)
            && (i != j ==> next.rooms[i] == st.rooms[i])
  {
    hide PlaceAt, PackedAt, PlaceTrace;
  }

  /** An array that is on the wire is decoded as a whole, and nothing changes it otherwise. */
  lemma {:induction false} DecodedIffOnWire(env: Platform, d: Descriptor, s: Bytes, p: nat, limit: nat, st: Progress, t: Trace,
          i: nat, met: bool, ever: nat)
    requires PlatformOk(env) && DescriptorOk(d) && ProgressOk(d, st) && p <= limit <= |s| && |st.rooms| == |t.fields| == |d.fields| && i < |d.fields|
    requires d.fields[i].htype.FixedCount? && ever <= d.fields[i].htype.count && Replaced(d, st, t, i, met, ever)
    requires MessageAt(env, d, s, p, limit, st).Some?
    ensures var found := FoundIn(env, d, s, p, limit, st);
            && MessageTrace(env, d, s, p, limit, st, t).fields[i].ever == (if met || i in found then d.fields[i].htype.count else ever)
            && (i !in found ==> MessageAt(env, d, s, p, limit, st).value[i] == st.rooms[i])
    decreases limit - p
  {
    hide PlatformOk, Shaped, DescriptorOk, TagAt, FindField, PastUnknown, Noted, FieldAt, ProgressOk, FieldTrace;
    if p == limit {
    } else {
      match TagAt(s, p, limit)
      case EndOfMessage =>
      case BadTag =>
      case TagRead(number, wireType, q) =>
        match FindField(d, number, |d.fields|)
        case None =>
          DecodedIffOnWire(env, d, s, PastUnknown(d, number, wireType, s, q, limit).value, limit, st, t, i, met, ever);
        case Some(j) =>
          var noted := Noted(d, j, st).value;
          NotedInBounds(d, j, st);
          ReplacedNoted(d, st, t, i, j, met, ever);
          ProgressShape(d, noted, i);
          ProgressShape(d, noted, j);
          FieldDecoded(env, d, j, wireType, s, q, limit, noted);
          ReplacedAfter(env, d, i, j, wireType, s, q, limit, noted, t, met || i == j, ever);
          var (next, r) := FieldAt(env, d, j, wireType, s, q, limit, noted).value;
          DecodedIffOnWire(env, d, s, r, limit, next, FieldTrace(env, d, j, wireType, s, q, limit, noted, t), i, met || i == j, ever);
    }
  }

  /** A fixed-count array whose tag is not on the wire is as the memory was before, but for its first
      bytes, which are cleared; one whose tag is on the wire has been decoded as a whole. */
  lemma LeftAlone(env: Platform, d: Descriptor, s: Bytes, memory: seq<Room>, i: nat)
    requires PlatformOk(env) && DescriptorOk(d) && Shaped(d, memory) && |memory| == |d.fields| && i < |d.fields| && d.fields[i].htype.FixedCount?
    requires Decoded(env, d, s, memory).Some?
    ensures memory[i].Fixed? && TypeOk(d.fields[i].ltype)
    ensures TraceOf(env, d, s).fields[i].ever == if i in OnWire(env, d, s) then d.fields[i].htype.count else 0
    ensures var r := Decoded(env, d, s, memory).value[i];
            if i in OnWire(env, d, s) then
              r.Fixed? && |r.places| == d.fields[i].htype.count && (!d.fields[i].ltype.MessageType? ==> forall p :: p in r.places ==> ValueOk(d.fields[i].ltype, ValueIn(p)))
            else r == Fixed(ClearItems(env, d.fields[i].ltype, env.width, memory[i].places))
  {
    hide PlatformOk, Shaped, Settled, Alike, NoTrace, MessageAt, MessageTrace, Twins, ProgressOk, FoundIn, ZeroRooms, RoomAlike,
         ClearItems, TypeOk, ValueOk, PlaceShaped;
    var zero := Start(ZeroRooms(d));
    var start := Start(Defaults(env, d, memory));
    StartTwins(env, d, memory);
    RoomIsShaped(d, memory, i);
    MessageRuns(env, d, s, 0, |s|, start, zero, start.rooms, NoTrace(d));
    assert Replaced(d, start, NoTrace(d), i, false, 0) && Replaced(d, zero, NoTrace(d), i, false, 0);
    DecodedIffOnWire(env, d, s, 0, |s|, start, NoTrace(d), i, false, 0);
    DecodedIffOnWire(env, d, s, 0, |s|, zero, NoTrace(d), i, false, 0);
    AllMet(env, d, Decoded(env, d, s, memory).value, OnZeros(env, d, s).value, start.rooms, TraceOf(env, d, s), i);
  }

  lemma AllMet(env: Platform, d: Descriptor, c: seq<Room>, z: seq<Room>, before: seq<Room>, t: Trace, i: nat)
    requires DescriptorOk(d) && Alike(env, d, c, z, before, t) && i < |d.fields| && d.fields[i].htype.FixedCount?
    ensures |c| == |t.fields| == |d.fields| && TypeOk(d.fields[i].ltype) && c[i].Fixed? && |c[i].places| == d.fields[i].htype.count
    ensures t.fields[i].ever == d.fields[i].htype.count && !d.fields[i].ltype.MessageType? ==> forall p :: p in c[i].places ==> ValueOk(d.fields[i].ltype, ValueIn(p))
  {
    hide ValueOk, TypeOk;
    assert RoomAlike(env, d.fields[i], c[i], z[i], before[i], t.fields[i]);
    if t.fields[i].ever == d.fields[i].htype.count && !d.fields[i].ltype.MessageType? {
      forall k: nat | k < |c[i].places|
        ensures ValueOk(d.fields[i].ltype, ValueIn(c[i].places[k]))
      {
        assert ValueAlike(env, d.fields[i].ltype, c[i].places[k], z[i].places[k], ItemBase(env, d.fields[i].ltype, PlacesOf(before[i])[k]), t.fields[i], k);
      }
    }
  }

  /** Item `k` of an array without messages: in bounds once the first bytes of the array are cleared. */
  lemma ClearedItemInBounds(env: Platform, l: LType, n: nat, p: Place)
    requires PlatformOk(env) && TypeOk(l) && !l.MessageType? && PlaceShaped(l, p)
    ensures ValueOk(l, ValueIn(ClearPlace(env, l, n, p))) <==> n > 0 || ValueOk(l, ValueIn(p))
  {
    hide PlatformOk;
    if IsNumber(l) {
      CutIsOk(env, l);
    }
  }

  /** The items of an array are in bounds, but for those that begin in its first bytes. */
  ghost predicate RestInBounds(env: Platform, l: LType, r: Room)
    requires TypeOk(l)
  {
    forall k: nat :: k < |PlacesOf(r)| && k * env.sizeOf(l) >= env.width ==> ValueOk(l, ValueIn(PlacesOf(r)[k]))
  }

  /** For a message without messages in it the tags on the wire and the memory before the call decide: it
      is in bounds exactly when, of every fixed-count array that is not on the wire, the items beyond the
      cleared bytes were. */
  lemma FlatInBounds(env: Platform, d: Descriptor, s: Bytes, memory: seq<Room>)
    requires PlatformOk(env) && DescriptorOk(d) && Shaped(d, memory) && |memory| == |d.fields|
    requires Decoded(env, d, s, memory).Some? && forall i :: 0 <= i < |d.fields| ==> !d.fields[i].ltype.MessageType?
    ensures MessageOk(d, MessageIn(Decoded(env, d, s, memory).value)) <==>
            forall i: nat :: i < |d.fields| && d.fields[i].htype.FixedCount? && i !in OnWire(env, d, s) ==> RestInBounds(env, d.fields[i].ltype, memory[i])
  {
    hide PlatformOk, Shaped, MessageOk, MessageIn, Decoded, OnWire, RestInBounds, Fits, TraceOf, OnZeros, TypeOk, RoomFits;
    DecodedInBounds(env, d, s, memory);
    var z, t, before, found := OnZeros(env, d, s).value, TraceOf(env, d, s), Defaults(env, d, memory), OnWire(env, d, s);
    ShapedSize(d, memory);
    ZeroRunShaped(env, d, s);
    forall i: nat | i < |d.fields|
      ensures RoomFits(env, d.fields[i], z[i], before[i], t.fields[i]) <==>
              (d.fields[i].htype.FixedCount? && i !in found ==> RestInBounds(env, d.fields[i].ltype, memory[i]))
    {
      RoomIsShaped(d, memory, i);
      RoomIsShaped(d, z, i);
      if d.fields[i].htype.FixedCount? {
        LeftAlone(env, d, s, memory, i);
      }
      FlatRoomFits(env, d.fields[i], z[i], memory[i], t.fields[i], i in found);
    }
    FitsByRooms(env, d, z, before, t);
  }

  lemma ZeroRunShaped(env: Platform, d: Descriptor, s: Bytes)
    requires PlatformOk(env) && DescriptorOk(d) && OnZeros(env, d, s).Some?
    ensures |OnZeros(env, d, s).value| == |d.fields| && Shaped(d, OnZeros(env, d, s).value)
  {
    hide PlatformOk, Shaped, DescriptorOk, MessageAt, ZeroRooms;
    ZeroRoomsShaped(d);
    MessageDecoded(env, d, s, 0, |s|, Start(ZeroRooms(d)));
  }

  lemma FitsByRooms(env: Platform, d: Descriptor, z: seq<Room>, before: seq<Room>, t: Trace)
    requires DescriptorOk(d) && |z| == |before| == |t.fields| == |d.fields|
    ensures Fits(env, d, z, before, t) <==> forall i: nat :: i < |z| ==> RoomFits(env, d.fields[i], z[i], before[i], t.fields[i])
  {
    hide RoomFits;
  }

  lemma FlatRoomFits(env: Platform, f: Field, z: Room, r: Room, m: Met, found: bool)
    requires PlatformOk(env) && TypeOk(f.ltype) && !f.ltype.MessageType? && RoomShaped(f, z) && RoomShaped(f, r)
    requires f.htype.FixedCount? ==> m.ever == if found then f.htype.count else 0
    ensures RoomFits(env, f, z, DefaultRoom(env, f, r), m) <==> (f.htype.FixedCount? && !found ==> RestInBounds(env, f.ltype, r))
  {
    hide PlatformOk, ValueOk, ClearPlace, PlaceShaped, ValueIn, RestInBounds, ClearItems, DefaultPlace, AllShaped, AllInBounds, ItemBase, RoomBase;
    if f.htype.FixedCount? {
      FlatFixedFits(env, f, z, ClearItems(env, f.ltype, env.width, r.places), m, found);
      RestIsInBounds(env, f.ltype, r);
    }
  }

  ghost predicate AllInBounds(l: LType, ps: seq<Place>)
    requires TypeOk(l)
  {
    forall k: nat :: k < |ps| ==> ValueOk(l, ValueIn(ps[k]))
  }

  lemma FlatFixedFits(env: Platform, f: Field, z: Room, ps: seq<Place>, m: Met, found: bool)
    requires TypeOk(f.ltype) && !f.ltype.MessageType? && z.Fixed? && |z.places| == |ps|
    requires m.ever == if found then |ps| else 0
    ensures RoomFits(env, f, z, Fixed(ps), m) <==> found || AllInBounds(f.ltype, ps)
  {
    hide ValueOk, ValueIn, ItemBase;
    if AllInBounds(f.ltype, ps) {
      forall k: nat | k < |ps| && k >= m.ever
        ensures ValueOk(f.ltype, ValueIn(PlacesOf(Fixed(ps))[k]))
      {
        assert ValueOk(f.ltype, ValueIn(ps[k]));
      }
    } else if !found {
      var k: nat :| k < |ps| && !ValueOk(f.ltype, ValueIn(ps[k]));
      assert z.places[k] == z.places[k] && PlacesOf(Fixed(ps))[k] == ps[k];
    }
  }

  lemma RestIsInBounds(env: Platform, l: LType, r: Room)
    requires PlatformOk(env) && TypeOk(l) && !l.MessageType? && r.Fixed? && AllShaped(l, r.places)
    ensures RestInBounds(env, l, r) <==> AllInBounds(l, ClearItems(env, l, env.width, r.places))
  {
    hide PlatformOk, ValueOk, ClearPlace, PlaceShaped, ValueIn, Beyond;
    var cleared := ClearItems(env, l, env.width, r.places);
    forall k: nat | k < |r.places|
      ensures ValueOk(l, ValueIn(cleared[k])) <==> k * env.sizeOf(l) < env.width || ValueOk(l, ValueIn(PlacesOf(r)[k]))
    {
      ClearedItemInBounds(env, l, Beyond(env.width, k * env.sizeOf(l)), r.places[k]);
      BeyondIsLeft(env.width, k * env.sizeOf(l));
    }
    if AllInBounds(l, cleared) {
      forall k: nat | k < |PlacesOf(r)| && k * env.sizeOf(l) >= env.width
        ensures ValueOk(l, ValueIn(PlacesOf(r)[k]))
      {
        assert ValueOk(l, ValueIn(cleared[k]));
      }
    }
  }

  lemma BeyondIsLeft(n: nat, at: nat)
    ensures Beyond(n, at) > 0 <==> at < n
  {
  }

  /** An empty buffer is a message of one fixed-count array of strings. The first string is cleared, and the
      second one stays as it was, whether it ends or not. */
  lemma LeftAloneExample(env: Platform, first: Datum)
    requires env.width == 4 && env.sizeOf(StringType(4)) == 4
    ensures var d := Descriptor([Field(1, FixedCount(2), StringType(4))]);
            var memory := [Fixed([Leaf(first), Leaf(DataValue([65, 65, 65, 65]))])];
            && DescriptorOk(d)
            && Decoded(env, d, [], memory) == Some([Fixed([Leaf(DataValue([])), Leaf(DataValue([65, 65, 65, 65]))])])
            && !MessageOk(d, MessageIn(Decoded(env, d, [], memory).value))
  {
    var d := Descriptor([Field(1, FixedCount(2), StringType(4))]);
    var f, ps, left := d.fields[0], [Leaf(first), Leaf(DataValue([65, 65, 65, 65]))], [Leaf(DataValue([])), Leaf(DataValue([65, 65, 65, 65]))];
    assert ClearItems(env, f.ltype, 4, ps) == left;
    assert Defaults(env, d, [Fixed(ps)]) == [Fixed(left)];
    assert RequiredBefore(d, 1) == 0;
    SecondNotEnded(f, left);
    assert MessageIn([Fixed(left)])[0] == SlotIn(Fixed(left));
  }

  lemma SecondNotEnded(f: Field, ps: seq<Place>)
    requires f == Field(1, FixedCount(2), StringType(4)) && |ps| == 2 && ps[1] == Leaf(DataValue([65, 65, 65, 65]))
    ensures !SlotOk(f, SlotIn(Fixed(ps)))
  {
    assert SlotIn(Fixed(ps)).values[1] == ValueIn(ps[1]);
  }
}
