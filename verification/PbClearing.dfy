/** Clearing the first bytes of memory: doing it again, or setting to defaults before or after, makes no
    difference. Fixed-count arrays that nothing is decoded into therefore hold what their memory held
    when the message was first set to defaults, however often that is done. */
module PbClearing {
  import opened History
  import opened Coding
  import opened Protobuf
  import opened PbMemory

  // ---------- clearing twice ----------

  lemma BeyondMost(n: nat, m: nat, at: nat)
    ensures Most(Beyond(n, at), Beyond(m, at)) == Beyond(Most(n, m), at)
  {
  }

  lemma LeafTwice(env: Platform, l: LType, n: nat, m: nat, v: Datum)
    requires PlatformOk(env) && TypeOk(l) && LeafShaped(l, v)
    ensures ClearLeaf(env, l, n, ClearLeaf(env, l, m, v)) == ClearLeaf(env, l, Most(n, m), v)
  {
    hide PlatformOk;
    if IsNumber(l) {
      CutIsOk(env, l);
    }
  }

  lemma {:induction false} ClearTwice(env: Platform, l: LType, n: nat, m: nat, p: Place)
    requires PlatformOk(env) && TypeOk(l) && PlaceShaped(l, p)
    ensures ClearPlace(env, l, n, ClearPlace(env, l, m, p)) == ClearPlace(env, l, Most(n, m), p)
    decreases l, 0
  {
    hide PlatformOk, ClearLeaf;
    if l.MessageType? {
      RoomsTwice(env, l.d, n, m, p.rooms);
    } else {
      LeafTwice(env, l, n, m, p.v);
    }
  }

  lemma {:induction false} ItemsTwice(env: Platform, l: LType, n: nat, m: nat, ps: seq<Place>)
    requires PlatformOk(env) && TypeOk(l) && AllShaped(l, ps)
    ensures ClearItems(env, l, n, ClearItems(env, l, m, ps)) == ClearItems(env, l, Most(n, m), ps)
    decreases l, 1
  {
    hide PlatformOk, ClearPlace, PlaceShaped, Beyond, Most;
    forall k | 0 <= k < |ps|
      ensures ClearItems(env, l, n, ClearItems(env, l, m, ps))[k] == ClearItems(env, l, Most(n, m), ps)[k]
    {
      var at := k * env.sizeOf(l);
      ClearTwice(env, l, Beyond(n, at), Beyond(m, at), ps[k]);
      BeyondMost(n, m, at);
    }
  }

  lemma {:induction false} RoomsTwice(env: Platform, d: Descriptor, n: nat, m: nat, rooms: seq<Room>)
    requires PlatformOk(env) && DescriptorOk(d) && Shaped(d, rooms)
    ensures ClearRooms(env, d, n, ClearRooms(env, d, m, rooms)) == ClearRooms(env, d, Most(n, m), rooms)
    decreases d
  {
    hide PlatformOk, ClearPlace, ClearItems, PlaceShaped, AllShaped, Beyond;
    forall i | 0 <= i < |rooms|
      ensures ClearRoom(env, d, i, n, ClearRoom(env, d, i, m, rooms[i])) == ClearRoom(env, d, i, Most(n, m), rooms[i])
    {
      var f, r, at := d.fields[i], rooms[i], env.dataAt(d, i);
      assert RoomShaped(f, r);
      BeyondMost(n, m, at);
      if r.Items? || r.Fixed? {
        ItemsTwice(env, f.ltype, Beyond(n, at), Beyond(m, at), r.places);
      } else if !r.Member? || r.option.Some? {
        ClearTwice(env, f.ltype, Beyond(n, at), Beyond(m, at), PlaceOf(r, f.ltype));
      }
    }
  }

  lemma LeafStaysOk(env: Platform, l: LType, n: nat, v: Datum)
    requires PlatformOk(env) && TypeOk(l) && !l.MessageType? && ValueOk(l, v)
    ensures ValueOk(l, ClearLeaf(env, l, n, v))
  {
    hide PlatformOk;
    if IsNumber(l) {
      CutIsOk(env, l);
    }
  }

  // ---------- cleared memory ----------

  lemma {:induction false} ClearZero(env: Platform, l: LType, n: nat)
    requires PlatformOk(env) && TypeOk(l)
    ensures ClearPlace(env, l, n, ZeroPlace(l)) == ZeroPlace(l)
    decreases l
  {
    hide PlatformOk;
    if l.MessageType? {
      ClearZeroRooms(env, l.d, n);
    } else if IsNumber(l) {
      CutIsOk(env, l);
    } else if l.FixedBytesType? {
      assert ZeroBytes(ZeroValue(l).bytes, n) == ZeroValue(l).bytes;
    }
  }

  lemma {:induction false} ClearZeroRooms(env: Platform, d: Descriptor, n: nat)
    requires PlatformOk(env) && DescriptorOk(d)
    ensures ClearRooms(env, d, n, ZeroRooms(d)) == ZeroRooms(d)
    decreases d
  {
    hide PlatformOk, ClearPlace, ZeroPlace;
    forall i | 0 <= i < |d.fields|
      ensures ClearRoom(env, d, i, n, ZeroRoom(d.fields[i])) == ZeroRoom(d.fields[i])
    {
      ClearZeroRoom(env, d, i, n);
    }
  }

  lemma {:induction false} ClearZeroRoom(env: Platform, d: Descriptor, i: nat, n: nat)
    requires PlatformOk(env) && DescriptorOk(d) && i < |d.fields|
    ensures ClearRoom(env, d, i, n, ZeroRoom(d.fields[i])) == ZeroRoom(d.fields[i])
    decreases d, 0
  {
    hide PlatformOk, ClearPlace, ZeroPlace, Beyond;
    var f, m := d.fields[i], Beyond(n, env.dataAt(d, i));
    ClearZero(env, f.ltype, m);
    if f.htype.Repeated? || f.htype.FixedCount? {
      var ps := PlacesOf(ZeroRoom(f));
      forall k | 0 <= k < |ps|
        ensures ClearItems(env, f.ltype, m, ps)[k] == ps[k]
      {
        ClearZero(env, f.ltype, Beyond(m, k * env.sizeOf(f.ltype)));
      }
    }
  }

  lemma {:induction false} DefaultZero(env: Platform, l: LType)
    requires PlatformOk(env) && TypeOk(l)
    ensures DefaultPlace(env, l, ZeroPlace(l)) == ZeroPlace(l)
    decreases l
  {
    if l.MessageType? {
      DefaultZeroRooms(env, l.d);
    }
  }

  lemma {:induction false} DefaultZeroRooms(env: Platform, d: Descriptor)
    requires PlatformOk(env) && DescriptorOk(d)
    ensures Defaults(env, d, ZeroRooms(d)) == ZeroRooms(d)
    decreases d
  {
    hide PlatformOk, DefaultPlace, ZeroPlace, ClearPlace;
    forall i | 0 <= i < |d.fields|
      ensures DefaultRoom(env, d.fields[i], ZeroRoom(d.fields[i])) == ZeroRoom(d.fields[i])
    {
      var f := d.fields[i];
      DefaultZero(env, f.ltype);
      if f.htype.FixedCount? {
        var ps := PlacesOf(ZeroRoom(f));
        forall k | 0 <= k < |ps|
          ensures ClearItems(env, f.ltype, env.width, ps)[k] == ps[k]
        {
          ClearZero(env, f.ltype, Beyond(env.width, k * env.sizeOf(f.ltype)));
        }
      }
    }
  }

  // ---------- clearing and defaults ----------

  lemma {:induction false} DefaultCleared(env: Platform, l: LType, n: nat, p: Place)
    requires PlatformOk(env) && TypeOk(l) && PlaceShaped(l, p)
    ensures DefaultPlace(env, l, ClearPlace(env, l, n, p)) == ClearPlace(env, l, n, DefaultPlace(env, l, p))
    decreases l
  {
    hide PlatformOk;
    if l.MessageType? {
      DefaultsCleared(env, l.d, n, p.rooms);
    } else {
      ClearZero(env, l, n);
    }
  }

  /** Defaults and clearing can be done in either order. */
  lemma {:induction false} DefaultsCleared(env: Platform, d: Descriptor, n: nat, rooms: seq<Room>)
    requires PlatformOk(env) && DescriptorOk(d) && Shaped(d, rooms)
    ensures Defaults(env, d, ClearRooms(env, d, n, rooms)) == ClearRooms(env, d, n, Defaults(env, d, rooms))
    decreases d
  {
    hide PlatformOk, DefaultPlace, ClearPlace, ClearItems, PlaceShaped, AllShaped, Beyond;
    forall i | 0 <= i < |rooms|
      ensures DefaultRoom(env, d.fields[i], ClearRoom(env, d, i, n, rooms[i])) == ClearRoom(env, d, i, n, DefaultRoom(env, d.fields[i], rooms[i]))
    {
      var f, r, m := d.fields[i], rooms[i], Beyond(n, env.dataAt(d, i));
      assert RoomShaped(f, r);
      if r.Fixed? {
        ItemsTwice(env, f.ltype, env.width, m, r.places);
        ItemsTwice(env, f.ltype, m, env.width, r.places);
        assert Most(env.width, m) == Most(m, env.width);
      } else if r.Single? || r.Flagged? {
        DefaultCleared(env, f.ltype, m, r.place);
      }
    }
  }

  // ---------- what clearing and defaults leave alone ----------

  /** The rooms that decoding an item would start with. */
  function ItemStart(env: Platform, d: Descriptor, p: Place): (r: seq<Room>)
    ensures |r| == |d.fields|
  {
    Defaults(env, d, RoomsOf(d, p))
  }

  /** Clearing the first `n` bytes changes no item of a fixed-count array, now or when the struct around
      it is set to defaults. */
  ghost predicate Absorbs(env: Platform, d: Descriptor, n: nat, rooms: seq<Room>)
    requires |rooms| == |d.fields|
    decreases d
  {
    forall i :: 0 <= i < |rooms| ==> RoomAbsorbs(env, d.fields[i], Beyond(n, env.dataAt(d, i)), rooms[i])
  }

  ghost predicate RoomAbsorbs(env: Platform, f: Field, m: nat, r: Room)
    decreases f
  {
    match f.htype
    case OneOf(_) => true
    case Repeated(_) =>
      f.ltype.MessageType? ==> forall k :: 0 <= k < |PlacesOf(r)| ==> ItemAbsorbs(env, f.ltype, Beyond(m, k * env.sizeOf(f.ltype)), PlacesOf(r)[k])
    case FixedCount(_) =>
      forall k :: 0 <= k < |PlacesOf(r)| ==>
        && ClearPlace(env, f.ltype, Beyond(m, k * env.sizeOf(f.ltype)), PlacesOf(r)[k]) == PlacesOf(r)[k]
        && ItemAbsorbs(env, f.ltype, Beyond(m, k * env.sizeOf(f.ltype)), PlacesOf(r)[k])
    case _ => f.ltype.MessageType? ==> Absorbs(env, f.ltype.d, m, RoomsOf(f.ltype.d, PlaceOf(r, f.ltype)))
  }

  ghost predicate ItemAbsorbs(env: Platform, l: LType, m: nat, p: Place)
    decreases l
  {
    l.MessageType? ==> Absorbs(env, l.d, m, ItemStart(env, l.d, p))
  }

  lemma {:induction false} ItemClearAbsorbs(env: Platform, l: LType, n: nat, p: Place)
    requires PlatformOk(env) && TypeOk(l) && PlaceShaped(l, p)
    ensures ItemAbsorbs(env, l, n, ClearPlace(env, l, n, p))
    decreases l, 0
  {
    hide PlatformOk, Absorbs, Shaped, Defaults, ClearRooms;
    if l.MessageType? {
      ShapedSize(l.d, p.rooms);
      DefaultsAbsorb(env, l.d, n, p.rooms);
    }
  }

  lemma ShapedSize(d: Descriptor, rooms: seq<Room>)
    requires DescriptorOk(d) && Shaped(d, rooms)
    ensures |rooms| == |d.fields|
  {
  }

  lemma {:induction false} DefaultsAbsorb(env: Platform, d: Descriptor, n: nat, rooms: seq<Room>)
    requires PlatformOk(env) && DescriptorOk(d) && Shaped(d, rooms)
    ensures Absorbs(env, d, n, Defaults(env, d, ClearRooms(env, d, n, rooms)))
    decreases d
  {
    hide PlatformOk, PlaceShaped, AllShaped, ClearPlace, DefaultPlace, ItemAbsorbs, Beyond, RoomAbsorbs;
    forall i | 0 <= i < |rooms|
      ensures RoomAbsorbs(env, d.fields[i], Beyond(n, env.dataAt(d, i)), DefaultRoom(env, d.fields[i], ClearRoom(env, d, i, n, rooms[i])))
    {
      DefaultRoomAbsorbs(env, d, i, n, rooms[i]);
    }
  }

  lemma {:induction false} DefaultRoomAbsorbs(env: Platform, d: Descriptor, i: nat, n: nat, r: Room)
    requires PlatformOk(env) && DescriptorOk(d) && i < |d.fields| && TypeOk(d.fields[i].ltype) && RoomShaped(d.fields[i], r)
    ensures RoomAbsorbs(env, d.fields[i], Beyond(n, env.dataAt(d, i)), DefaultRoom(env, d.fields[i], ClearRoom(env, d, i, n, r)))
    decreases d, 0
  {
    hide PlatformOk, PlaceShaped, ClearPlace, ItemAbsorbs, Beyond, Absorbs, Defaults;
    var f, m := d.fields[i], Beyond(n, env.dataAt(d, i));
    var l := f.ltype;
    if r.Items? {
      forall k | 0 <= k < |r.places|
        ensures ItemAbsorbs(env, l, Beyond(m, k * env.sizeOf(l)), ClearItems(env, l, m, r.places)[k])
      {
        ItemClearAbsorbs(env, l, Beyond(m, k * env.sizeOf(l)), r.places[k]);
      }
    } else if r.Fixed? {
      var ps := ClearItems(env, l, env.width, ClearItems(env, l, m, r.places));
      forall k | 0 <= k < |ps|
        ensures ClearPlace(env, l, Beyond(m, k * env.sizeOf(l)), ps[k]) == ps[k]
        ensures ItemAbsorbs(env, l, Beyond(m, k * env.sizeOf(l)), ps[k])
      {
        TwiceCleared(env, l, Beyond(env.width, k * env.sizeOf(l)), Beyond(m, k * env.sizeOf(l)), r.places[k]);
      }
    } else if (r.Single? || r.Flagged?) && l.MessageType? {
      DefaultPlaceAbsorbs(env, l, m, r.place);
    }
  }

  lemma {:induction false} DefaultPlaceAbsorbs(env: Platform, l: LType, m: nat, p: Place)
    requires PlatformOk(env) && TypeOk(l) && l.MessageType? && PlaceShaped(l, p)
    ensures Absorbs(env, l.d, m, RoomsOf(l.d, DefaultPlace(env, l, ClearPlace(env, l, m, p))))
    decreases l, 1
  {
    hide PlatformOk, Absorbs, Shaped, Defaults, ClearRooms;
    ShapedSize(l.d, p.rooms);
    DefaultsAbsorb(env, l.d, m, p.rooms);
  }

  /** An item of which first `m`, then `w` bytes were cleared. */
  lemma {:induction false} TwiceCleared(env: Platform, l: LType, w: nat, m: nat, p: Place)
    requires PlatformOk(env) && TypeOk(l) && PlaceShaped(l, p)
    ensures var c := ClearPlace(env, l, w, ClearPlace(env, l, m, p));
            ClearPlace(env, l, m, c) == c && ClearPlace(env, l, w, c) == c
            && ItemAbsorbs(env, l, m, c) && ItemAbsorbs(env, l, w, c)
    decreases l, 2
  {
    hide PlatformOk, PlaceShaped, ClearPlace, ItemAbsorbs;
    var c := ClearPlace(env, l, w, ClearPlace(env, l, m, p));
    ClearedShaped(env, l, m, p);
    ClearedShaped(env, l, w, p);
    ClearTwice(env, l, w, m, p);
    ClearTwice(env, l, m, w, p);
    ClearTwice(env, l, m, Most(w, m), p);
    ClearTwice(env, l, w, Most(w, m), p);
    ItemClearAbsorbs(env, l, w, ClearPlace(env, l, m, p));
    ItemClearAbsorbs(env, l, m, ClearPlace(env, l, w, p));
  }

  // ---------- settled memory ----------

  /** Setting to defaults once more changes no fixed-count array. */
  ghost predicate Settled(env: Platform, d: Descriptor, rooms: seq<Room>)
    requires |rooms| == |d.fields|
    decreases d
  {
    forall i :: 0 <= i < |rooms| ==> RoomSettled(env, d.fields[i], rooms[i])
  }

  ghost predicate RoomSettled(env: Platform, f: Field, r: Room)
    decreases f
  {
    match f.htype
    case OneOf(_) => true
    case Repeated(_) => forall k :: 0 <= k < |PlacesOf(r)| ==> ItemSettled(env, f.ltype, PlacesOf(r)[k])
    case FixedCount(_) =>
      forall k :: 0 <= k < |PlacesOf(r)| ==>
        && ClearPlace(env, f.ltype, Beyond(env.width, k * env.sizeOf(f.ltype)), PlacesOf(r)[k]) == PlacesOf(r)[k]
        && ItemAbsorbs(env, f.ltype, Beyond(env.width, k * env.sizeOf(f.ltype)), PlacesOf(r)[k])
        && ItemSettled(env, f.ltype, PlacesOf(r)[k])
    case _ => f.ltype.MessageType? ==> Settled(env, f.ltype.d, RoomsOf(f.ltype.d, PlaceOf(r, f.ltype)))
  }

  ghost predicate ItemSettled(env: Platform, l: LType, p: Place)
    decreases l
  {
    l.MessageType? ==> Settled(env, l.d, ItemStart(env, l.d, p))
  }

  lemma {:induction false} ItemIsSettled(env: Platform, l: LType, p: Place)
    requires PlatformOk(env) && TypeOk(l) && PlaceShaped(l, p)
    ensures ItemSettled(env, l, p)
    decreases l
  {
    hide PlatformOk, Settled, Shaped, Defaults;
    if l.MessageType? {
      ShapedSize(l.d, p.rooms);
      DefaultsSettled(env, l.d, p.rooms);
    }
  }

  lemma {:induction false} DefaultsSettled(env: Platform, d: Descriptor, rooms: seq<Room>)
    requires PlatformOk(env) && DescriptorOk(d) && Shaped(d, rooms)
    ensures Settled(env, d, Defaults(env, d, rooms))
    decreases d
  {
    hide PlatformOk, PlaceShaped, AllShaped, DefaultRoom, RoomSettled;
    forall i | 0 <= i < |rooms|
      ensures RoomSettled(env, d.fields[i], DefaultRoom(env, d.fields[i], rooms[i]))
    {
      DefaultRoomSettled(env, d.fields[i], rooms[i]);
    }
  }

  lemma {:induction false} DefaultRoomSettled(env: Platform, f: Field, r: Room)
    requires PlatformOk(env) && TypeOk(f.ltype) && RoomShaped(f, r)
    ensures RoomSettled(env, f, DefaultRoom(env, f, r))
    decreases f
  {
    hide PlatformOk, PlaceShaped, ClearPlace, ItemAbsorbs, ItemSettled, Beyond, Settled, Defaults;
    var l := f.ltype;
    if r.Items? {
      forall k | 0 <= k < |r.places|
        ensures ItemSettled(env, l, r.places[k])
      {
        ItemIsSettled(env, l, r.places[k]);
      }
    } else if r.Fixed? {
      var ps := ClearItems(env, l, env.width, r.places);
      forall k | 0 <= k < |ps|
        ensures ClearPlace(env, l, Beyond(env.width, k * env.sizeOf(l)), ps[k]) == ps[k]
        ensures ItemAbsorbs(env, l, Beyond(env.width, k * env.sizeOf(l)), ps[k]) && ItemSettled(env, l, ps[k])
      {
        var w := Beyond(env.width, k * env.sizeOf(l));
        ClearTwice(env, l, w, w, r.places[k]);
        ClearedShaped(env, l, w, r.places[k]);
        ItemClearAbsorbs(env, l, w, r.places[k]);
        ItemIsSettled(env, l, ps[k]);
      }
    } else if (r.Single? || r.Flagged?) && l.MessageType? {
      DefaultPlaceSettled(env, l, r.place);
    }
  }

  lemma {:induction false} DefaultPlaceSettled(env: Platform, l: LType, p: Place)
    requires PlatformOk(env) && TypeOk(l) && l.MessageType? && PlaceShaped(l, p)
    ensures Settled(env, l.d, RoomsOf(l.d, DefaultPlace(env, l, p)))
    decreases l
  {
    hide PlatformOk, Settled, Shaped, Defaults;
    ShapedSize(l.d, p.rooms);
    DefaultsSettled(env, l.d, p.rooms);
  }
}
