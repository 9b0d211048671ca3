/** Decoding keeps the memory of a message in the shape of its descriptor, and every number, string and
    byte string that it writes is within bounds. */
module PbShapes {
  import opened History
  import opened Coding
  import opened Protobuf
  import opened PbMemory
  import opened PbDecode

  // ---------- values ----------

  lemma ScalarInBounds(l: LType, s: Bytes, p: nat, limit: nat)
    requires limit <= |s| && Packable(l) && TypeOk(l)
    ensures ScalarAt(l, s, p, limit).Some? ==> ValueOk(l, ScalarAt(l, s, p, limit).value.0)
  {
    hide Varint32At, Varint64At, UnZigZag, AsSigned, DecodeFixed32, DecodeFixed64;
  }

  lemma {:induction false} PackedInBounds(l: LType, s: Bytes, p: nat, end: nat, room: nat)
    requires p <= end <= |s| && Packable(l) && TypeOk(l)
    ensures PackedItems(l, s, p, end, room).Some? ==> ValuesOk(l, PackedItems(l, s, p, end, room).value)
    decreases end - p
  {
    hide ScalarAt, ValueOk;
    if p < end && room > 0 && ScalarAt(l, s, p, end).Some? {
      ScalarInBounds(l, s, p, end);
      PackedInBounds(l, s, ScalarAt(l, s, p, end).value.1, end, room - 1);
    }
  }

  lemma PackedAtInBounds(l: LType, s: Bytes, p: nat, limit: nat, room: nat)
    requires p <= limit <= |s| && Packable(l) && TypeOk(l)
    ensures PackedAt(l, s, p, limit, room).Some? ==> ValuesOk(l, PackedAt(l, s, p, limit, room).value.0)
  {
    hide PackedItems, ValueOk, Varint32At;
    match Varint32At(s, p, limit)
    case None =>
    case Some((size, q)) =>
      if q + size <= limit {
        PackedInBounds(l, s, q, q + size, room);
      }
  }

  /** A place that holds a value in bounds, other than a struct. */
  ghost predicate LeafOk(l: LType, p: Place)
    requires TypeOk(l)
  {
    p.Leaf? && ValueOk(l, p.v)
  }

  lemma LeafOkIsShaped(l: LType, p: Place)
    requires TypeOk(l) && !l.MessageType? && LeafOk(l, p)
    ensures PlaceShaped(l, p) && ValueOk(l, ValueIn(p))
  {
  }

  lemma LeavesAreShaped(l: LType, vs: seq<Datum>)
    requires TypeOk(l) && Packable(l) && ValuesOk(l, vs)
    ensures AllShaped(l, Leaves(vs)) && forall k :: 0 <= k < |vs| ==> LeafOk(l, Leaves(vs)[k])
  {
    hide ValueOk, PlaceShaped;
    forall k | 0 <= k < |vs|
      ensures PlaceShaped(l, Leaves(vs)[k])
    {
      LeafOkIsShaped(l, Leaf(vs[k]));
    }
  }

  lemma StringEnds(s: Bytes, p: nat, limit: nat)
    requires p <= limit <= |s| && StringAt(s, p, limit).Some?
    ensures |StringAt(s, p, limit).value.0| <= StringAt(s, p, limit).value.1
  {
  }

  lemma LeafDecoded(env: Platform, l: LType, s: Bytes, p: nat, limit: nat, current: Place, init: bool)
    requires p <= limit <= |s| && TypeOk(l) && !l.MessageType?
    ensures PlaceAt(env, l, s, p, limit, current, init).Some? ==> LeafOk(l, PlaceAt(env, l, s, p, limit, current, init).value.0)
    ensures PlaceAt(env, l, s, p, limit, current, init) == PlaceAt(env, l, s, p, limit, ZeroPlace(l), false)
  {
    hide ScalarAt, StringAt, MessageAt;
    if Packable(l) {
      ScalarInBounds(l, s, p, limit);
    }
  }

  lemma StartShaped(env: Platform, d: Descriptor, current: Place, init: bool)
    requires PlatformOk(env) && DescriptorOk(d) && PlaceShaped(MessageType(d), current)
    ensures current.Struct? && RoomsOf(d, current) == current.rooms
    ensures Shaped(d, StartsWith(env, d, current, init))
  {
    hide PlatformOk;
    DefaultsShaped(env, d, current.rooms);
  }

  lemma {:induction false} PlaceDecoded(env: Platform, l: LType, s: Bytes, p: nat, limit: nat, current: Place, init: bool)
    requires PlatformOk(env) && p <= limit <= |s| && TypeOk(l) && PlaceShaped(l, current)
    ensures PlaceAt(env, l, s, p, limit, current, init).Some? ==> PlaceShaped(l, PlaceAt(env, l, s, p, limit, current, init).value.0)
    decreases l, 0
  {
    hide PlatformOk, ScalarAt, StringAt, MessageAt, Shaped, LeafOk, StartsWith;
    if !l.MessageType? {
      LeafDecoded(env, l, s, p, limit, current, init);
      if PlaceAt(env, l, s, p, limit, current, init).Some? {
        LeafOkIsShaped(l, PlaceAt(env, l, s, p, limit, current, init).value.0);
      }
    } else if StringAt(s, p, limit).Some? {
      var (bytes, q) := StringAt(s, p, limit).value;
      StringEnds(s, p, limit);
      StartShaped(env, l.d, current, init);
      MessageDecoded(env, l.d, s, q - |bytes|, q, Start(StartsWith(env, l.d, current, init)));
    }
  }

  // ---------- fields ----------

  ghost predicate ProgressOk(d: Descriptor, st: Progress)
    requires DescriptorOk(d)
  {
    && Shaped(d, st.rooms)
    && (st.fixedField.Some? ==>
          && st.fixedField.value < |d.fields|
          && d.fields[st.fixedField.value].htype.FixedCount?
          && st.fixedSize <= d.fields[st.fixedField.value].htype.count)
  }

  lemma RoomIsShaped(d: Descriptor, rooms: seq<Room>, i: nat)
    requires DescriptorOk(d) && Shaped(d, rooms) && i < |d.fields|
    ensures |rooms| == |d.fields| && TypeOk(d.fields[i].ltype) && RoomShaped(d.fields[i], rooms[i])
  {
  }

  lemma NotedInBounds(d: Descriptor, i: nat, st: Progress)
    requires DescriptorOk(d) && ProgressOk(d, st) && i < |d.fields| && Noted(d, i, st).Some?
    ensures ProgressOk(d, Noted(d, i, st).value) && Noted(d, i, st).value.rooms == st.rooms
    ensures d.fields[i].htype.FixedCount? ==> Noted(d, i, st).value.fixedField == Some(i)
  {
    hide Shaped;
  }

  /** A value put in its place, and any other member of its union gone. */
  lemma WithValueShaped(d: Descriptor, rooms: seq<Room>, i: nat, p: Place)
    requires DescriptorOk(d) && Shaped(d, rooms) && i < |d.fields| && PlaceShaped(d.fields[i].ltype, p)
    requires !d.fields[i].htype.Repeated? && !d.fields[i].htype.FixedCount?
    ensures Shaped(d, WithValue(d, rooms, i, p))
  {
    hide PlaceShaped, AllShaped, TypeOk;
    var r := WithValue(d, rooms, i, p);
    forall k | 0 <= k < |r|
      ensures RoomShaped(d.fields[k], r[k])
    {
      assert RoomShaped(d.fields[k], rooms[k]);
    }
    forall a, b | 0 <= a < b < |r| && d.fields[a].htype.OneOf? && d.fields[a].htype == d.fields[b].htype
      ensures r[a] == Member(None) || r[b] == Member(None)
    {
    }
  }

  lemma WithArrayShaped(d: Descriptor, rooms: seq<Room>, i: nat, r: Room)
    requires DescriptorOk(d) && Shaped(d, rooms) && i < |d.fields| && RoomShaped(d.fields[i], r)
    requires d.fields[i].htype.Repeated? || d.fields[i].htype.FixedCount?
    ensures Shaped(d, rooms[i := r])
  {
    hide PlaceShaped, AllShaped, TypeOk;
    var next := rooms[i := r];
    forall a, b | 0 <= a < b < |next| && d.fields[a].htype.OneOf? && d.fields[a].htype == d.fields[b].htype
      ensures next[a] == Member(None) || next[b] == Member(None)
    {
      assert next[a] == rooms[a] && next[b] == rooms[b];
    }
  }

  lemma PayloadShaped(f: Field, r: Room)
    requires TypeOk(f.ltype) && RoomShaped(f, r) && !f.htype.Repeated? && !f.htype.FixedCount?
    ensures PlaceShaped(f.ltype, Payload(f, r))
  {
    ZeroShaped(f.ltype);
  }

  lemma ProgressShape(d: Descriptor, st: Progress, i: nat)
    requires DescriptorOk(d) && ProgressOk(d, st) && i < |d.fields|
    ensures TypeOk(d.fields[i].ltype) && |st.rooms| == |d.fields| && RoomShaped(d.fields[i], st.rooms[i]) && Shaped(d, st.rooms)
    ensures d.fields[i].htype.FixedCount? && st.fixedField == Some(i) ==> st.fixedSize <= d.fields[i].htype.count
  {
    RoomIsShaped(d, st.rooms, i);
  }

  lemma ItemsShaped(d: Descriptor, i: nat, st: Progress, more: seq<Place>)
    requires DescriptorOk(d) && ProgressOk(d, st) && i < |d.fields| && |st.rooms| == |d.fields| && AllShaped(d.fields[i].ltype, more)
    requires d.fields[i].htype.Repeated? || (d.fields[i].htype.FixedCount? && st.fixedField == Some(i))
    requires CountOf(st, st.rooms[i]) + |more| <= |PlacesOf(st.rooms[i])|
    ensures ProgressOk(d, WithItems(st, i, more))
  {
    hide PlaceShaped, Shaped, DescriptorOk;
    var next := WithItems(st, i, more);
    ProgressShape(d, st, i);
    assert AllShaped(d.fields[i].ltype, PlacesOf(next.rooms[i]));
    assert RoomShaped(d.fields[i], next.rooms[i]);
    WithArrayShaped(d, st.rooms, i, next.rooms[i]);
  }

  lemma {:induction false} ItemDecoded(env: Platform, d: Descriptor, i: nat, wireType: nat, s: Bytes, p: nat, limit: nat, st: Progress)
    requires PlatformOk(env) && DescriptorOk(d) && ProgressOk(d, st) && p <= limit <= |s| && i < |d.fields| && |st.rooms| == |d.fields|
    requires d.fields[i].htype.Repeated? || (d.fields[i].htype.FixedCount? && st.fixedField == Some(i))
    ensures FieldAt(env, d, i, wireType, s, p, limit, st).Some? ==> ProgressOk(d, FieldAt(env, d, i, wireType, s, p, limit, st).value.0)
    decreases d, 0, 0
  {
    hide PlatformOk, Shaped, DescriptorOk, PlaceShaped, PlaceAt, PackedAt, WithItems, ProgressOk, ValueOk;
    var f := d.fields[i];
    ProgressShape(d, st, i);
    var n, ps := CountOf(st, st.rooms[i]), PlacesOf(st.rooms[i]);
    if n <= |ps| {
      if wireType == WT_STRING && Packable(f.ltype) {
        PackedAtInBounds(f.ltype, s, p, limit, |ps| - n);
        match PackedAt(f.ltype, s, p, limit, |ps| - n)
        case None =>
        case Some((vs, q)) =>
          LeavesAreShaped(f.ltype, vs);
          ItemsShaped(d, i, st, Leaves(vs));
      } else if n < |ps| {
        PlaceDecoded(env, f.ltype, s, p, limit, ps[n], true);
        match PlaceAt(env, f.ltype, s, p, limit, ps[n], true)
        case None =>
        case Some((v, q)) => ItemsShaped(d, i, st, [v]);
      }
    }
  }

  lemma {:induction false} FieldDecoded(env: Platform, d: Descriptor, i: nat, wireType: nat, s: Bytes, p: nat, limit: nat, st: Progress)
    requires PlatformOk(env) && DescriptorOk(d) && ProgressOk(d, st) && p <= limit <= |s| && i < |d.fields| && |st.rooms| == |d.fields|
    requires d.fields[i].htype.FixedCount? ==> st.fixedField == Some(i)
    ensures FieldAt(env, d, i, wireType, s, p, limit, st).Some? ==> ProgressOk(d, FieldAt(env, d, i, wireType, s, p, limit, st).value.0)
    decreases d, limit - p, 1
  {
    hide PlatformOk, Shaped, DescriptorOk, PlaceShaped, PlaceAt, ItemAt, WithValue;
    var f := d.fields[i];
    RoomIsShaped(d, st.rooms, i);
    if f.htype.Repeated? || f.htype.FixedCount? {
      ItemDecoded(env, d, i, wireType, s, p, limit, st);
    } else {
      PayloadShaped(f, st.rooms[i]);
      PlaceDecoded(env, f.ltype, s, p, limit, Payload(f, st.rooms[i]), false);
      match PlaceAt(env, f.ltype, s, p, limit, Payload(f, st.rooms[i]), false)
      case None =>
      case Some((v, q)) => WithValueShaped(d, st.rooms, i, v);
    }
  }

  // ---------- messages ----------

  lemma MessageAtEnd(env: Platform, d: Descriptor, s: Bytes, limit: nat, st: Progress)
    requires limit <= |s| && |st.rooms| == |d.fields|
    ensures MessageAt(env, d, s, limit, limit, st) == Finished(d, st)
  {
    hide TagAt, FindField, PastUnknown, Noted, FieldAt, Finished;
  }

  lemma {:induction false} MessageDecoded(env: Platform, d: Descriptor, s: Bytes, p: nat, limit: nat, st: Progress)
    requires PlatformOk(env) && DescriptorOk(d) && ProgressOk(d, st) && p <= limit <= |s| && |st.rooms| == |d.fields|
    ensures MessageAt(env, d, s, p, limit, st).Some? ==> Shaped(d, MessageAt(env, d, s, p, limit, st).value)
    decreases d, limit - p, 2
  {
    hide PlatformOk, Shaped, DescriptorOk, TagAt, FindField, PastUnknown, Noted, FieldAt;
    if p < limit {
      match TagAt(s, p, limit)
      case EndOfMessage =>
      case BadTag =>
      case TagRead(number, wireType, q) =>
        match FindField(d, number, |d.fields|)
        case None =>
          if PastUnknown(d, number, wireType, s, q, limit).Some? {
            MessageDecoded(env, d, s, PastUnknown(d, number, wireType, s, q, limit).value, limit, st);
          }
        case Some(i) =>
          match Noted(d, i, st)
          case None =>
          case Some(noted) =>
            NotedInBounds(d, i, st);
            FieldDecoded(env, d, i, wireType, s, q, limit, noted);
            match FieldAt(env, d, i, wireType, s, q, limit, noted)
            case None =>
            case Some((next, r)) => MessageDecoded(env, d, s, r, limit, next);
    }
  }
}
