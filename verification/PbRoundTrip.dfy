/** Encoding into a buffer and decoding it again. */
module PbRoundTrip {
  import opened Coding
  import opened PbMessage
  import opened PbStream
  import opened PbDecode
  import opened PbEncode
  import opened PbDecodeMessage

  /** The sizing pass alone. */
  method GetEncodedSize(fields: seq<Field>, slots: seq<Slot>) returns (r: Status, size: nat)
    requires Shaped(fields, slots)
    ensures r == Ok <==> Fits(fields, slots)
    ensures r == Ok ==> size == |MessageBytes(fields, slots, 0)|
  {
    hide Shaped, Fits, MessageBytes;
    var stream := new OStream(true, 0, []);
    r := Encode(stream, fields, slots);
    size := stream.bytesWritten;
  }

  method EncodeToBuffer(fields: seq<Field>, slots: seq<Slot>, bufsize: nat) returns (r: Status, buffer: Bytes)
    requires Shaped(fields, slots)
    ensures r == Ok <==> Fits(fields, slots) && |MessageBytes(fields, slots, 0)| <= bufsize
    ensures r == Ok ==> buffer == MessageBytes(fields, slots, 0)
    ensures r != SubmsgSizeChanged
  {
    hide Shaped, Fits, MessageBytes;
    var stream := new OStream(false, bufsize, []);
    r := Encode(stream, fields, slots);
    buffer := stream.buffer;
    assert r == Ok ==> buffer == [] + MessageBytes(fields, slots, 0);
  }

  /** What the encoder accepts the decoder gives back, except that it refuses a text that fills
      its array without a terminator. */
  method RoundTrip(fields: seq<Field>, slots: seq<Slot>, bufsize: nat) returns (r: Status, ok: bool, result: seq<Slot>)
    requires WellFormed(fields) && Shaped(fields, slots) && bufsize < TWO_32
    ensures r == Ok <==> Fits(fields, slots) && |MessageBytes(fields, slots, 0)| <= bufsize
    ensures r == Ok ==> (ok <==> Terminated(fields, slots))
    ensures r == Ok && ok ==> result == Clean(fields, slots)
  {
    hide WellFormed, Shaped, Fits, MessageBytes, Terminated, Clean;
    var buffer;
    r, buffer := EncodeToBuffer(fields, slots, bufsize);
    ok, result := false, [];
    if r == Ok {
      var stream := new IStream(buffer, 0, |buffer|);
      assert stream.Content() == buffer;
      HoldsCarries(buffer, fields, slots);
      ok, result := Decode(stream, fields, slots);
    }
  }

  /** Such a text: one letter in an array of one. */
  lemma FullTextIsRefused()
    ensures
      var fields, slots := [Field(1, Required, Text(1), Data([]))], [One(Data([65]))];
      WellFormed(fields) && Shaped(fields, slots) && Fits(fields, slots) && !Terminated(fields, slots)
  {
    var fields, slots := [Field(1, Required, Text(1), Data([]))], [One(Data([65]))];
    assert SlotShaped(fields[0], slots[0]) && Sent(fields[0], slots[0])[0] == Data([65]);
    assert !ItemTerminated(fields[0].kind, Sent(fields[0], slots[0])[0]);
    assert !SlotTerminated(fields[0], slots[0]);
  }

  // ----- encoding again -----

  ghost predicate Alike(kind: Kind, vs: seq<Value>, ws: seq<Value>) {
    && |vs| == |ws| && (forall v :: v in vs ==> ItemShaped(kind, v)) && (forall w :: w in ws ==> ItemShaped(kind, w))
    && forall k :: 0 <= k < |vs| ==> ItemBytes(kind, vs[k]) == ItemBytes(kind, ws[k])
  }

  lemma {:induction false} AlikeItems(kind: Kind, vs: seq<Value>, ws: seq<Value>)
    requires Alike(kind, vs, ws)
    ensures ItemsBytes(kind, vs) == ItemsBytes(kind, ws)
  {
    if vs != [] {
      assert ItemBytes(kind, vs[0]) == ItemBytes(kind, ws[0]);
      AlikeItems(kind, vs[1..], ws[1..]);
    }
  }

  lemma {:induction false} AlikeFields(field: Field, vs: seq<Value>, ws: seq<Value>, j: nat)
    requires Alike(field.kind, vs, ws) && j <= Units(field, vs)
    ensures FieldBytes(field, vs, j) == FieldBytes(field, ws, j)
    decreases Units(field, vs) - j
  {
    if j < Units(field, vs) {
      AlikeFields(field, vs, ws, j + 1);
      AlikeItems(field.kind, vs, ws);
      UnitStep(field, vs, j);
      UnitStep(field, ws, j);
    }
  }

  /** What is not set is not sent: decoding and encoding again gives the same bytes. */
  lemma {:induction false} CleanBytes(fields: seq<Field>, slots: seq<Slot>, i: nat)
    requires WellFormed(fields) && Shaped(fields, slots) && i <= |fields|
    ensures Shaped(fields, Clean(fields, slots))
    ensures MessageBytes(fields, Clean(fields, slots), i) == MessageBytes(fields, slots, i)
    ensures forall k :: 0 <= k < |fields| ==> (IsUnset(fields[k], Clean(fields, slots)[k]) <==> IsUnset(fields[k], slots[k]))
    decreases fields, |fields| - i + 1
  {
    var clean := Clean(fields, slots);
    CleanSlots(fields, slots);
    if i < |fields| {
      AlikeFields(fields[i], Sent(fields[i], clean[i]), Sent(fields[i], slots[i]), 0);
      CleanBytes(fields, slots, i + 1);
    }
  }

  lemma {:induction false} CleanSlots(fields: seq<Field>, slots: seq<Slot>)
    requires WellFormed(fields) && Shaped(fields, slots)
    ensures
      var clean := Clean(fields, slots);
      forall k :: 0 <= k < |fields| ==>
        && SlotShaped(fields[k], clean[k]) && (IsUnset(fields[k], clean[k]) <==> IsUnset(fields[k], slots[k]))
        && Alike(fields[k].kind, Sent(fields[k], clean[k]), Sent(fields[k], slots[k]))
    decreases fields, 0
  {
    var clean := Clean(fields, slots);
    forall k | 0 <= k < |fields|
      ensures SlotShaped(fields[k], clean[k]) && (IsUnset(fields[k], clean[k]) <==> IsUnset(fields[k], slots[k]))
      ensures Alike(fields[k].kind, Sent(fields[k], clean[k]), Sent(fields[k], slots[k]))
    {
      assert FieldWellFormed(fields[k]) && SlotShaped(fields[k], slots[k]);
      CleanField(fields[k], slots[k]);
    }
  }

  lemma {:induction false} CleanField(field: Field, slot: Slot)
    requires FieldWellFormed(field) && SlotShaped(field, slot)
    ensures SlotShaped(field, CleanSlot(field, slot))
    ensures IsUnset(field, CleanSlot(field, slot)) <==> IsUnset(field, slot)
    ensures Alike(field.kind, Sent(field, CleanSlot(field, slot)), Sent(field, slot))
    decreases field
  {
    hide ItemShaped, CleanItem, ItemBytes, IsZero;
    var clean := CleanSlot(field, slot);
    match slot
    case One(v) => CleanValue(field.kind, v);
    case Maybe(has, v) =>
      CleanValue(field.kind, v);
      DefaultShaped(field);
      assert DefaultSlot(field) == Maybe(false, DefaultValue(field));
    case Many(items) => CleanEntries(field.kind, items);
    case All(items) => CleanEntries(field.kind, items);
  }

  lemma CleanEntries(kind: Kind, items: seq<Value>)
    requires KindWellFormed(kind) && forall v :: v in items ==> ItemShaped(kind, v)
    ensures Alike(kind, CleanItems(kind, items), items)
    decreases kind, 1
  {
    hide ItemShaped, CleanItem, ItemBytes, IsZero;
    forall k | 0 <= k < |items|
      ensures ItemShaped(kind, CleanItem(kind, items[k])) && ItemBytes(kind, CleanItem(kind, items[k])) == ItemBytes(kind, items[k])
    {
      CleanValue(kind, items[k]);
    }
  }

  lemma {:induction false} CleanValue(kind: Kind, v: Value)
    requires KindWellFormed(kind) && ItemShaped(kind, v)
    ensures ItemShaped(kind, CleanItem(kind, v))
    ensures IsZero(kind, CleanItem(kind, v)) <==> IsZero(kind, v)
    ensures ItemBytes(kind, CleanItem(kind, v)) == ItemBytes(kind, v)
    decreases kind, 0
  {
    if kind.Submessage? {
      assert Shaped(kind.fields, v.slots);
      CleanBytes(kind.fields, v.slots, 0);
    }
  }
}
