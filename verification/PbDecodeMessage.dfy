/** The decoder's message loop: fields in any order, packed and unpacked arrays, submessages. */
module PbDecodeMessage {
  import opened Coding
  import opened PbMessage
  import opened PbStream
  import opened PbParse
  import opened PbDecode

  // ----- one field -----

  /** A value; a submessage is decoded over what is there, unless it is a new array entry. */
  method DecodeItem(stream: IStream, kind: Kind, entry: bool, current: Value, ghost v: Value) returns (ok: bool, value: Value)
    requires stream.Valid() && KindWellFormed(kind) && (!entry ==> ItemShaped(kind, current))
    modifies stream
    ensures stream.Valid() && stream.left <= old(stream.left)
    ensures ok ==> ItemShaped(kind, value) && stream.left < old(stream.left) && stream.pos + stream.left == old(stream.pos + stream.left)
    ensures ok ==> var n := old(stream.left) - stream.left; Span(kind, old(stream.Content()), n) && stream.Content() == old(stream.Content())[n..]
    ensures StartsWith(old(stream.Content()), kind, v) && (kind.Submessage? && !entry ==> current == Zero(kind)) ==>
              && (ok <==> ItemTerminated(kind, v))
              && (ok ==> value == CleanItem(kind, v) && stream.Content() == old(stream.Content())[|ItemBytes(kind, v)|..])
    decreases kind
  {
    if !kind.Submessage? {
      ok, value := DecodeScalar(stream, kind, v);
    } else {
      ZeroShaped(kind);
      ok, value := DecodeSubmessage(stream, kind.fields, entry, if entry then Zero(kind) else current, v);
    }
  }

  method DecodeSubmessage(stream: IStream, fields: seq<Field>, entry: bool, current: Value, ghost v: Value) returns (ok: bool, value: Value)
    requires stream.Valid() && WellFormed(fields) && ItemShaped(Submessage(fields), current)
    modifies stream
    ensures stream.Valid() && stream.left <= old(stream.left)
    ensures ok ==> ItemShaped(Submessage(fields), value) && stream.left < old(stream.left) && stream.pos + stream.left == old(stream.pos + stream.left)
    ensures ok ==> var n := old(stream.left) - stream.left; Delimited(old(stream.Content()), n) && stream.Content() == old(stream.Content())[n..]
    ensures StartsWith(old(stream.Content()), Submessage(fields), v) && (!entry ==> current == Zero(Submessage(fields))) ==>
              && (ok <==> ItemTerminated(Submessage(fields), v))
              && (ok ==> value == CleanItem(Submessage(fields), v)
                         && stream.Content() == old(stream.Content())[|ItemBytes(Submessage(fields), v)|..])
    decreases fields, 6
  {
    hide StartsWith, ItemShaped, ItemBytes, ItemTerminated, CleanItem, Prefixed, Shaped, Fits, Terminated, Clean, MessageBytes, WellFormed, Carries, Holds, Sound,
         Delimited, PrefixAt, Accepts, Taken, Zero, Defaults;
    ghost var content := stream.Content();
    ghost var good := StartsWith(content, Submessage(fields), v);
    ghost var msg: seq<Slot> := [];
    ghost var bs: Bytes := [];
    if good {
      MessageStarts(content, fields, v);
      msg := v.slots;
      bs := MessageBytes(fields, msg, 0);
    }
    var sub;
    ghost var k;
    ok, sub, k := MakeSubstream(stream, bs);
    value := current;
    if !ok {
      return;
    }
    StringAt(content, k, |content| - stream.left);
    ghost var after := stream.bytes[sub.end..sub.end + stream.left];
    assert good ==> |Prefixed(bs)| <= |content| && after == content[|Prefixed(bs)|..];
    ok, value := DecodeInto(sub, fields, entry, current, msg);
    CloseSubstream(stream, sub);
    assert ok ==> stream.Content() == after;
  }

  method DecodeInto(sub: IStream, fields: seq<Field>, entry: bool, current: Value, ghost msg: seq<Slot>) returns (ok: bool, value: Value)
    requires sub.Valid() && WellFormed(fields) && ItemShaped(Submessage(fields), current)
    modifies sub
    ensures sub.Valid() && sub.left <= old(sub.left) && (ok ==> sub.pos + sub.left == old(sub.pos + sub.left))
    ensures ItemShaped(Submessage(fields), value)
    ensures Carries(old(sub.Content()), fields, msg) && (!entry ==> current == Zero(Submessage(fields))) ==>
              Shaped(fields, msg) && (ok <==> Terminated(fields, msg)) && (ok ==> value == Message(Clean(fields, msg)))
    decreases fields, 5
  {
    hide ItemShaped, Shaped, Terminated, Clean, WellFormed, Carries, Sound, Zero, Defaults;
    MessageShape(fields, current);
    CarriesIsShaped(sub.Content(), fields, msg);
    var slots;
    if entry {
      ok, slots := Decode(sub, fields, msg);
    } else {
      ok, slots := DecodeNoinit(sub, fields, current.slots, msg);
    }
    MessageOf(fields, slots);
    value := Message(slots);
  }

  lemma CarriesIsShaped(content: Bytes, fields: seq<Field>, msg: seq<Slot>)
    ensures Carries(content, fields, msg) ==> Shaped(fields, msg)
  {
    hide Woven, Fits, Shaped;
  }

  lemma StringAt(content: Bytes, k: nat, n: nat)
    requires PrefixAt(content, k, n)
    ensures Delimited(content, n)
  {
    hide PrefixAt;
  }

  lemma MessageShape(fields: seq<Field>, v: Value)
    requires ItemShaped(Submessage(fields), v)
    ensures v.Message? && Shaped(fields, v.slots)
    ensures v == Zero(Submessage(fields)) ==> v.slots == Defaults(fields)
  {
  }

  lemma MessageOf(fields: seq<Field>, slots: seq<Slot>)
    requires Shaped(fields, slots)
    ensures ItemShaped(Submessage(fields), Message(slots))
  {
  }

  lemma MessageStarts(content: Bytes, fields: seq<Field>, v: Value)
    requires StartsWith(content, Submessage(fields), v)
    ensures v.Message? && Shaped(fields, v.slots) && Carries(MessageBytes(fields, v.slots, 0), fields, v.slots)
    ensures |MessageBytes(fields, v.slots, 0)| < TWO_32
    ensures ItemBytes(Submessage(fields), v) == Prefixed(MessageBytes(fields, v.slots, 0)) <= content
    ensures ItemTerminated(Submessage(fields), v) <==> Terminated(fields, v.slots)
    ensures CleanItem(Submessage(fields), v) == Message(Clean(fields, v.slots))
  {
    hide Varint;
    assert Shaped(fields, v.slots) && Fits(fields, v.slots);
    HoldsCarries(MessageBytes(fields, v.slots, 0), fields, v.slots);
  }

  /** Puts a value in an array; `size` entries are there already. */
  function Store(field: Field, slot: Slot, size: nat, v: Value): Slot
    requires Array(field) && (if field.rule.Repeated? then slot.Many? else slot.All? && size < |slot.items|)
  {
    if field.rule.Repeated? then Many(slot.items + [v]) else All(slot.items[size := v])
  }

  /** A packed array in one string, as many values as the array has room for. */
  method DecodePacked(stream: IStream, field: Field, slot: Slot, size: nat, ghost items: seq<Value>)
    returns (ok: bool, filled: Slot, count: nat)
    requires stream.Valid() && Packed(field) && SlotShaped(field, slot)
    requires if field.rule.Repeated? then size == |slot.items| else size <= |slot.items|
    modifies stream
    ensures stream.Valid() && stream.left <= old(stream.left)
    ensures ok ==> SlotShaped(field, filled) && stream.left < old(stream.left) && stream.pos + stream.left == old(stream.pos + stream.left)
    ensures ok ==> if field.rule.Repeated? then count == |filled.items| else count <= |filled.items|
    ensures ok ==>
      var n := old(stream.left) - stream.left;
      count >= size && FieldSpan(field, 2, old(stream.Content()), n, count - size) && stream.Content() == old(stream.Content())[n..]
    ensures PackedComes(old(stream.Content()), field, items) && size == 0 ==>
              && ok && count == |items| && |filled.items| >= count && filled.items[..count] == items
              && stream.Content() == old(stream.Content())[|Prefixed(ItemsBytes(field.kind, items))|..]
    decreases field, 2
  {
    hide Varint, Packed, SlotShaped, PackedCount, FieldSpan, ItemsBytes, Accepts, Taken;
    ghost var good := PackedComes(stream.Content(), field, items) && size == 0;
    ghost var bs := if good then ItemsBytes(field.kind, items) else [];
    filled, count := slot, size;
    var sub;
    ghost var content, k := stream.Content(), 0;
    ok, sub, k := MakeSubstream(stream, bs);
    if !ok {
      return;
    }
    ghost var n := |content| - stream.left;
    ok, filled, count := DecodeEntries(sub, field, slot, size, items);
    if sub.left != 0 {
      return false, filled, count;
    }
    CloseSubstream(stream, sub);
    if ok {
      PackedSpan(field, content, k, n, count - size);
    }
  }

  lemma PackedSpan(field: Field, content: Bytes, k: nat, n: nat, entries: nat)
    requires Packed(field) && PrefixAt(content, k, n) && entries == PackedCount(field.kind, content[k..n])
    ensures FieldSpan(field, 2, content, n, entries)
  {
    hide PackedCount;
  }

  method DecodeEntries(sub: IStream, field: Field, slot: Slot, size: nat, ghost items: seq<Value>)
    returns (ok: bool, filled: Slot, count: nat)
    requires sub.Valid() && Packed(field) && SlotShaped(field, slot)
    requires if field.rule.Repeated? then size == |slot.items| else size <= |slot.items|
    modifies sub
    ensures sub.Valid() && sub.left <= old(sub.left) && (ok ==> sub.pos + sub.left == old(sub.pos + sub.left))
    ensures SlotShaped(field, filled) && (if field.rule.Repeated? then count == |filled.items| else count <= |filled.items|)
    ensures ok && sub.left == 0 ==> count >= size && count - size == PackedCount(field.kind, old(sub.Content()))
    ensures EntriesCome(old(sub.Content()), field, items) && size == 0 ==>
              ok && count == |items| && |filled.items| >= count && filled.items[..count] == items && sub.left == 0
    decreases field, 1
  {
    hide Filling, Varint, ItemShaped, SlotShaped, ItemBytes, ItemsBytes, Store, Packed, Span, PackedCount, Limit;
    ghost var good := EntriesCome(sub.Content(), field, items) && size == 0;
    filled, count, ok := slot, size, true;
    StartsFilling(field, slot, size, sub.Content(), items, good);
    while sub.left > 0 && count < Limit(field)
      invariant sub.Valid() && ok && sub.left <= old(sub.left) && sub.pos + sub.left == old(sub.pos + sub.left)
      invariant Filling(field, filled, count, sub.Content(), items, good) && count >= size
      invariant PackedCount(field.kind, old(sub.Content())) == count - size + PackedCount(field.kind, sub.Content())
      decreases sub.left
    {
      ok, filled, count := NextEntry(sub, field, filled, count, items, good);
      if !ok {
        return;
      }
    }
    NoneLeft(field.kind);
    StopsFilling(field, filled, count, sub.Content(), items, good);
  }

  /** An array that holds `count` entries, and what is to come of the packed string. */
  ghost predicate Filling(field: Field, filled: Slot, count: nat, content: Bytes, items: seq<Value>, good: bool) {
    && Packed(field) && SlotShaped(field, filled) && (if field.rule.Repeated? then count == |filled.items| else count <= |filled.items|)
    && (good ==>
          && EntriesCome(ItemsOf(field, items), field, items) && count <= |items| && count <= |filled.items|
          && content == ItemsOf(field, items[count..]) && |content| < TWO_32 && filled.items[..count] == items[..count])
  }

  ghost function ItemsOf(field: Field, items: seq<Value>): Bytes {
    if forall v :: v in items ==> ItemShaped(field.kind, v) then ItemsBytes(field.kind, items) else []
  }

  lemma StartsFilling(field: Field, slot: Slot, size: nat, content: Bytes, items: seq<Value>, good: bool)
    requires Packed(field) && SlotShaped(field, slot) && (if field.rule.Repeated? then size == |slot.items| else size <= |slot.items|)
    requires good ==> EntriesCome(content, field, items) && size == 0
    ensures Array(field) && Filling(field, slot, size, content, items, good)
  {
    hide ItemShaped, ItemsBytes;
    assert items[0..] == items;
  }

  lemma StopsFilling(field: Field, filled: Slot, count: nat, content: Bytes, items: seq<Value>, good: bool)
    requires Filling(field, filled, count, content, items, good) && Array(field) && (content == [] || count >= Limit(field))
    ensures SlotShaped(field, filled) && (if field.rule.Repeated? then count == |filled.items| else count <= |filled.items|)
    ensures good ==> content == [] && count == |items| && |filled.items| >= count && filled.items[..count] == items
  {
    hide ItemShaped, ItemsBytes, SlotShaped;
    if good {
      EntryStep(content, field.kind, items, count);
      assert count == |items| ==> items[..count] == items;
    }
  }

  method NextEntry(sub: IStream, field: Field, slot: Slot, size: nat, ghost items: seq<Value>, ghost good: bool) returns (ok: bool, filled: Slot, count: nat)
    requires sub.Valid() && sub.left > 0 && Array(field) && size < Limit(field) && Filling(field, slot, size, sub.Content(), items, good)
    modifies sub
    ensures sub.Valid() && sub.left <= old(sub.left) && (ok ==> sub.left < old(sub.left) && sub.pos + sub.left == old(sub.pos + sub.left))
    ensures SlotShaped(field, filled) && (if field.rule.Repeated? then count == |filled.items| else count <= |filled.items|)
    ensures ok ==>
      && count == size + 1 && Filling(field, filled, count, sub.Content(), items, good)
      && PackedCount(field.kind, old(sub.Content())) == 1 + PackedCount(field.kind, sub.Content())
    ensures good ==> ok
    decreases field, 0
  {
    hide Varint, ItemShaped, SlotShaped, ItemBytes, ItemsBytes, StartsWith, ItemTerminated, CleanItem, Store, Packed, Span, PackedCount,
         KindWellFormed, Packable, Accepts, Taken, Delimited, EndsVarint, Limit;
    filled, count := slot, size;
    ArrayShaped(field, slot);
    PackableShape(field);
    ghost var content := sub.Content();
    if good {
      EntryStep(content, field.kind, items, size);
    }
    var v;
    ok, v := DecodeItem(sub, field.kind, true, Zero(field.kind), if good then items[size] else Zero(field.kind));
    if !ok {
      return;
    }
    OneLess(field.kind, content, |content| - sub.left);
    StoreShaped(field, slot, size, v);
    filled, count := Store(field, slot, size, v), size + 1;
  }

  lemma ArrayShaped(field: Field, slot: Slot)
    requires Packed(field) && SlotShaped(field, slot)
    ensures if field.rule.Repeated? then slot.Many? else slot.All? && |slot.items| == Limit(field)
    ensures Array(field)
  {
  }

  lemma PackableShape(field: Field)
    requires Packed(field)
    ensures KindWellFormed(field.kind) && Packable(field.kind) && !field.kind.Submessage?
  {
  }

  lemma StoreShaped(field: Field, slot: Slot, size: nat, v: Value)
    requires Array(field) && SlotShaped(field, slot) && ItemShaped(field.kind, v)
    requires if field.rule.Repeated? then size == |slot.items| else size < |slot.items|
    ensures SlotShaped(field, Store(field, slot, size, v))
    ensures
      var next := Store(field, slot, size, v);
      && (if field.rule.Repeated? then next.Many? && |next.items| == size + 1 else next.All? && |next.items| == |slot.items|)
      && next.items[..size + 1] == slot.items[..size] + [v]
  {
    var next := Store(field, slot, size, v);
    forall x | x in next.items ensures ItemShaped(field.kind, x) {
      assert x == v || x in slot.items;
    }
  }

  /** The next entry of a packed array. */
  lemma EntryStep(content: Bytes, kind: Kind, items: seq<Value>, count: nat)
    requires Packable(kind) && (forall v :: v in items ==> ItemShaped(kind, v)) && count <= |items|
    requires content == ItemsBytes(kind, items[count..]) && |content| < TWO_32
    ensures content == [] <==> count == |items|
    ensures count < |items| ==>
              && StartsWith(content, kind, items[count]) && ItemTerminated(kind, items[count]) && CleanItem(kind, items[count]) == items[count]
              && content[|ItemBytes(kind, items[count])|..] == ItemsBytes(kind, items[count + 1..])
    ensures count < |items| ==> items[..count + 1] == items[..count] + [items[count]]
  {
    hide Varint;
    if count < |items| {
      assert items[count..][1..] == items[count + 1..];
    }
  }

  ghost predicate EntriesCome(content: Bytes, field: Field, items: seq<Value>) {
    && Array(field) && (forall v :: v in items ==> ItemShaped(field.kind, v)) && |items| <= Limit(field)
    && content == ItemsBytes(field.kind, items) && |content| < TWO_32
  }

  ghost predicate PackedComes(content: Bytes, field: Field, items: seq<Value>) {
    && Array(field) && (forall v :: v in items ==> ItemShaped(field.kind, v)) && |items| <= Limit(field)
    && Prefixed(ItemsBytes(field.kind, items)) <= content && |content| < TWO_32
  }

  /** The next unit of field contents `m` is in front, and the slot holds what came before. */
  ghost predicate UnitComes(content: Bytes, field: Field, m: Slot, j: nat, wire: nat, slot: Slot, size: nat) {
    && SlotShaped(field, m) && SlotFits(field, m) && j < Units(field, Sent(field, m))
    && UnitBody(field, Sent(field, m), j) <= content && |content| < TWO_32 && wire == UnitWire(field)
    && slot == Received(field, m, j) && (Array(field) ==> size == Got(field, Sent(field, m), j))
  }

  ghost predicate UnitTerminated(field: Field, m: Slot, j: nat)
    requires SlotShaped(field, m) && j < Units(field, Sent(field, m))
  {
    Packed(field) || ItemTerminated(field.kind, Sent(field, m)[j])
  }

  ghost predicate SizeOf(field: Field, slot: Slot, size: nat)
    requires Array(field) ==> slot.Many? || slot.All?
  {
    Array(field) ==> if field.rule.Repeated? then size == |slot.items| else size <= |slot.items|
  }

  lemma ShapeOfSlot(field: Field, slot: Slot)
    requires SlotShaped(field, slot) && FieldWellFormed(field)
    ensures KindWellFormed(field.kind)
    ensures Array(field) ==> (if field.rule.Repeated? then slot.Many? else slot.All? && |slot.items| == Limit(field))
    ensures !Array(field) ==> (if field.rule.Optional? then slot.Maybe? else slot.One?) && ItemShaped(field.kind, slot.value)
  {
  }

  lemma UnitStarts(content: Bytes, field: Field, m: Slot, j: nat, wire: nat, slot: Slot, size: nat)
    requires UnitComes(content, field, m, j, wire, slot, size)
    ensures Packed(field) ==> j == 0 && size == 0 && m.items == Sent(field, m) && PackedComes(content, field, m.items)
    ensures Packed(field) ==> UnitBody(field, Sent(field, m), j) == Prefixed(ItemsBytes(field.kind, m.items))
    ensures !Packed(field) ==> StartsWith(content, field.kind, Sent(field, m)[j])
    ensures !Packed(field) ==> UnitBody(field, Sent(field, m), j) == ItemBytes(field.kind, Sent(field, m)[j])
    ensures !Array(field) ==> j == 0 && m.value == Sent(field, m)[0] && (if m.Maybe? then m.has else m.One?)
    ensures !Array(field) && field.kind.Submessage? ==> (slot.One? || slot.Maybe?) && slot.value == Zero(field.kind)
    ensures Array(field) ==> (m.Many? || m.All?) && m.items == Sent(field, m) && |m.items| <= Limit(field)
    ensures Array(field) && !Packed(field) ==> size == j
  {
    hide Varint;
    if !Array(field) {
      assert DefaultSlot(field).value == DefaultValue(field);
    }
  }

  /** Storing the next entry of an unpacked array. */
  lemma ReceivedNext(field: Field, m: Slot, j: nat)
    requires SlotShaped(field, m) && Array(field) && !Packed(field) && j < |m.items| && |m.items| <= Limit(field)
    ensures SlotShaped(field, Received(field, m, j)) ==>
              Store(field, Received(field, m, j), j, CleanItem(field.kind, m.items[j])) == Received(field, m, j + 1)
  {
    hide CleanItem, ItemShaped, CleanItems;
    var items := m.items;
    OneMoreClean(field.kind, items, j);
    var clean, v := CleanItems(field.kind, items[..j]), CleanItem(field.kind, items[j]);
    if SlotShaped(field, Received(field, m, j)) {
      var before := Received(field, m, j);
      if field.rule.Fixed? {
        var rest := DefaultSlot(field).items;
        StoreInRow(clean, rest, j, v);
        assert before.items == clean + rest[j..];
      } else {
        assert before.items == clean;
      }
    }
  }

  lemma OneMoreClean(kind: Kind, items: seq<Value>, j: nat)
    requires j < |items| && forall v :: v in items ==> ItemShaped(kind, v)
    ensures CleanItems(kind, items[..j + 1]) == CleanItems(kind, items[..j]) + [CleanItem(kind, items[j])]
    ensures |CleanItems(kind, items[..j])| == j
  {
    hide CleanItem, ItemShaped;
    assert items[..j + 1] == items[..j] + [items[j]];
  }

  lemma StoreInRow(clean: seq<Value>, rest: seq<Value>, j: nat, v: Value)
    requires |clean| == j < |rest|
    ensures (clean + rest[j..])[j := v] == clean + [v] + rest[j + 1..] && (j == 0 ==> clean + rest[j..] == rest)
  {
  }

  lemma PackedReceived(field: Field, m: Slot, filled: Slot)
    requires SlotShaped(field, m) && SlotShaped(field, filled) && Packed(field) && m.items != []
    requires |filled.items| >= |m.items| && filled.items[..|m.items|] == m.items
    requires field.rule.Repeated? ==> |filled.items| == |m.items|
    ensures filled == Received(field, m, 1)
  {
    assert CleanItems(field.kind, m.items) == m.items;
    assert filled.items == m.items;
  }

  /** A field that is not an array. */
  method DecodeSingle(stream: IStream, field: Field, slot: Slot, ghost m: Slot, ghost wire: nat) returns (ok: bool, filled: Slot)
    requires stream.Valid() && FieldWellFormed(field) && SlotShaped(field, slot) && !Array(field)
    modifies stream
    ensures stream.Valid() && stream.left <= old(stream.left)
    ensures ok ==> SlotShaped(field, filled) && stream.left < old(stream.left) && stream.pos + stream.left == old(stream.pos + stream.left)
    ensures ok ==> var n := old(stream.left) - stream.left; Span(field.kind, old(stream.Content()), n) && stream.Content() == old(stream.Content())[n..]
    ensures UnitComes(old(stream.Content()), field, m, 0, wire, slot, 0) ==>
              && (ok <==> UnitTerminated(field, m, 0))
              && (ok ==> filled == Received(field, m, 1) && stream.Content() == old(stream.Content())[|UnitBody(field, Sent(field, m), 0)|..])
    decreases field, 0
  {
    hide ItemShaped, ItemBytes, StartsWith, ItemTerminated, CleanItem, UnitBody, ItemFits;
    ghost var good := UnitComes(stream.Content(), field, m, 0, wire, slot, 0);
    if good {
      UnitStarts(stream.Content(), field, m, 0, wire, slot, 0);
    }
    ShapeOfSlot(field, slot);
    var v;
    ok, v := DecodeItem(stream, field.kind, false, slot.value, if good then m.value else Zero(field.kind));
    filled := if field.rule.Optional? then Maybe(true, v) else One(v);
  }

  /** A field, by its rule and the wire type that came with it. */
  method DecodeStaticField(stream: IStream, wire: nat, field: Field, slot: Slot, size: nat, ghost m: Slot, ghost j: nat)
    returns (ok: bool, filled: Slot, count: nat, ghost entries: nat)
    requires stream.Valid() && FieldWellFormed(field) && SlotShaped(field, slot) && SizeOf(field, slot, size)
    modifies stream
    ensures stream.Valid() && stream.left <= old(stream.left)
    ensures ok ==> SlotShaped(field, filled) && stream.left < old(stream.left) && stream.pos + stream.left == old(stream.pos + stream.left)
    ensures ok ==> SizeOf(field, filled, count) && (Array(field) ==> count == size + entries)
    ensures ok ==> var n := old(stream.left) - stream.left; FieldSpan(field, wire, old(stream.Content()), n, entries) && stream.Content() == old(stream.Content())[n..]
    ensures UnitComes(old(stream.Content()), field, m, j, wire, slot, size) ==>
              && (ok <==> UnitTerminated(field, m, j))
              && (ok ==> filled == Received(field, m, j + 1) && (Array(field) ==> count == Got(field, Sent(field, m), j + 1))
                         && stream.Content() == old(stream.Content())[|UnitBody(field, Sent(field, m), j)|..])
    decreases field, 3
  {
    hide ItemShaped, SlotShaped, SlotFits, ItemBytes, StartsWith, ItemTerminated, CleanItem, UnitBody, ItemFits, Received, Store, Varint, FieldWellFormed,
         Span, FieldSpan, KindWellFormed, WellFormed;
    ghost var content := stream.Content();
    ghost var good := UnitComes(stream.Content(), field, m, j, wire, slot, size);
    if good {
      UnitStarts(stream.Content(), field, m, j, wire, slot, size);
    }
    ShapeOfSlot(field, slot);
    filled, count, entries := slot, size, 1;
    if !Array(field) {
      ok, filled := DecodeSingle(stream, field, slot, m, wire);
      if ok {
        OneSpan(field, wire, content, |content| - stream.left);
      }
    } else if wire == 2 && Packable(field.kind) {
      ok, filled, count := DecodePacked(stream, field, slot, size, if good then m.items else []);
      entries := if count >= size then count - size else 0;
      if good {
        PackedReceived(field, m, filled);
      }
    } else {
      ok, filled, count := DecodeEntry(stream, field, slot, size, m, j, wire);
      if ok {
        OneSpan(field, wire, content, |content| - stream.left);
      }
    }
  }

  /** One more entry of an array, if there is room. */
  method DecodeEntry(stream: IStream, field: Field, slot: Slot, size: nat, ghost m: Slot, ghost j: nat, ghost wire: nat)
    returns (ok: bool, filled: Slot, count: nat)
    requires stream.Valid() && FieldWellFormed(field) && SlotShaped(field, slot) && Array(field)
    requires if field.rule.Repeated? then slot.Many? && size == |slot.items| else slot.All? && size <= |slot.items| == Limit(field)
    modifies stream
    ensures stream.Valid() && stream.left <= old(stream.left)
    ensures ok ==> SlotShaped(field, filled) && stream.left < old(stream.left) && stream.pos + stream.left == old(stream.pos + stream.left)
    ensures ok ==> (filled.Many? || filled.All?) && SizeOf(field, filled, count) && count == size + 1
    ensures ok ==> var n := old(stream.left) - stream.left; Span(field.kind, old(stream.Content()), n) && stream.Content() == old(stream.Content())[n..]
    ensures UnitComes(old(stream.Content()), field, m, j, wire, slot, size) && !Packed(field) ==>
              && (ok <==> UnitTerminated(field, m, j))
              && (ok ==> filled == Received(field, m, j + 1) && count == Got(field, Sent(field, m), j + 1)
                         && stream.Content() == old(stream.Content())[|UnitBody(field, Sent(field, m), j)|..])
    decreases field, 1
  {
    hide ItemShaped, SlotShaped, SlotFits, ItemBytes, StartsWith, ItemTerminated, CleanItem, UnitBody, ItemFits, Received, Store, Varint, FieldWellFormed,
         Span, WellFormed;
    ghost var good := UnitComes(stream.Content(), field, m, j, wire, slot, size) && !Packed(field);
    if good {
      UnitStarts(stream.Content(), field, m, j, wire, slot, size);
    }
    ShapeOfSlot(field, slot);
    filled, count, ok := slot, size, false;
    if size >= Limit(field) {
      return;
    }
    var v;
    ok, v := DecodeItem(stream, field.kind, true, Zero(field.kind), if good then m.items[j] else Zero(field.kind));
    if !ok {
      return;
    }
    StoreShaped(field, slot, size, v);
    filled, count := Store(field, slot, size, v), size + 1;
    if good {
      ReceivedNext(field, m, j);
    }
  }

  lemma OneSpan(field: Field, wire: nat, content: Bytes, n: nat)
    requires !PackedWire(field, wire) && Span(field.kind, content, n)
    ensures FieldSpan(field, wire, content, n, 1)
  {
  }

  // ----- the message loop -----

  /** How many required fields come before field `i`. */
  function RequiredIndex(fields: seq<Field>, i: nat): (r: nat)
    requires i <= |fields|
  {
    if i == 0 then 0 else RequiredIndex(fields, i - 1) + if fields[i - 1].rule.Required? then 1 else 0
  }

  lemma {:induction false} RequiredIndexIs(fields: seq<Field>, i: nat)
    requires i <= |fields|
    ensures RequiredIndex(fields, i) == RequiredBefore(fields, i)
  {
    var all := set k | 0 <= k < i && k < |fields| && fields[k].rule.Required?;
    if i == 0 {
      assert all == {};
    } else {
      RequiredIndexIs(fields, i - 1);
      var before := set k | 0 <= k < i - 1 && k < |fields| && fields[k].rule.Required?;
      assert all == before + if fields[i - 1].rule.Required? then {i - 1} else {};
    }
  }

  lemma {:induction false} RequiredRises(fields: seq<Field>, i: nat, j: nat)
    requires i < j <= |fields| && fields[i].rule.Required?
    ensures RequiredIndex(fields, i) < RequiredIndex(fields, j)
  {
    if j > i + 1 {
      RequiredRises(fields, i, j - 1);
    }
  }

  /** The required fields are numbered without gaps. */
  lemma {:induction false} RequiredAt(fields: seq<Field>, i: nat, r: nat) returns (k: nat)
    requires i <= |fields| && r < RequiredIndex(fields, i)
    ensures k < i && fields[k].rule.Required? && RequiredIndex(fields, k) == r
  {
    k := i - 1;
    if !fields[k].rule.Required? || RequiredIndex(fields, k) != r {
      k := RequiredAt(fields, i - 1, r);
    }
  }

  /** What is left of the message after `j` units of field `i`. */
  ghost function Remaining(fields: seq<Field>, msg: seq<Slot>, i: nat, j: nat): Bytes
    requires Shaped(fields, msg) && At(fields, msg, i, j)
  {
    if i == |fields| then [] else FieldBytes(fields[i], Sent(fields[i], msg[i]), j) + MessageBytes(fields, msg, i + 1)
  }

  ghost predicate At(fields: seq<Field>, msg: seq<Slot>, i: nat, j: nat)
    requires Shaped(fields, msg)
  {
    i <= |fields| && if i < |fields| then j <= Units(fields[i], Sent(fields[i], msg[i])) else j == 0
  }

  /** The content is what is left of the message, with any number of fields the message does not
      have before, between and behind its own. */
  ghost predicate Woven(fields: seq<Field>, msg: seq<Slot>, i: nat, j: nat, content: Bytes)
    requires Shaped(fields, msg) && At(fields, msg, i, j)
    decreases |content|, |fields| - i
  {
    || (exists k: nat, n: nat :: UnknownFirst(fields, msg, i, j, content, k, n))
    || if i == |fields| then content == []
       else if j == Units(fields[i], Sent(fields[i], msg[i])) then Woven(fields, msg, i + 1, 0, content)
       else
         var unit := Unit(fields[i], Sent(fields[i], msg[i]), j);
         unit != [] && unit <= content && Woven(fields, msg, i, j + 1, content[|unit|..])
  }

  ghost predicate UnknownFirst(fields: seq<Field>, msg: seq<Slot>, i: nat, j: nat, content: Bytes, k: nat, n: nat)
    requires Shaped(fields, msg) && At(fields, msg, i, j)
    decreases |content|, |fields| - i, 0
  {
    UnknownAt(fields, content, k, n) && k > 0 && Woven(fields, msg, i, j, content[k + n..])
  }

  lemma {:induction false} NextWoven(fields: seq<Field>, msg: seq<Slot>, i: nat, j: nat, content: Bytes)
    requires Shaped(fields, msg) && i < |fields| && j == Units(fields[i], Sent(fields[i], msg[i])) && Woven(fields, msg, i, j, content)
    ensures Woven(fields, msg, i + 1, 0, content)
    decreases |content|
  {
    if k: nat, n: nat :| UnknownFirst(fields, msg, i, j, content, k, n) {
      NextWoven(fields, msg, i, j, content[k + n..]);
      assert UnknownFirst(fields, msg, i + 1, 0, content, k, n);
    }
  }

  /** A message alone is one with no such fields. */
  lemma {:induction false} PlainIsWoven(fields: seq<Field>, msg: seq<Slot>, i: nat, j: nat)
    requires Shaped(fields, msg) && At(fields, msg, i, j)
    ensures Woven(fields, msg, i, j, Remaining(fields, msg, i, j))
    decreases |fields| - i, if i < |fields| then Units(fields[i], Sent(fields[i], msg[i])) - j else 0
  {
    hide Woven, Unit, FieldBytes, MessageBytes, ItemShaped;
    if i < |fields| {
      var vs := Sent(fields[i], msg[i]);
      if j == Units(fields[i], vs) {
        PlainIsWoven(fields, msg, i + 1, 0);
        NothingLeft(fields, msg, i);
        WovenOn(fields, msg, i, Remaining(fields, msg, i, j));
      } else {
        PlainIsWoven(fields, msg, i, j + 1);
        UnitInFront(fields, msg, i, j);
        WovenUnit(fields, msg, i, j, Remaining(fields, msg, i, j));
      }
    } else {
      WovenOut(fields, msg);
    }
  }

  lemma WovenOn(fields: seq<Field>, msg: seq<Slot>, i: nat, content: Bytes)
    requires Shaped(fields, msg) && i < |fields| && Woven(fields, msg, i + 1, 0, content)
    ensures Woven(fields, msg, i, Units(fields[i], Sent(fields[i], msg[i])), content)
  {
  }

  lemma WovenUnit(fields: seq<Field>, msg: seq<Slot>, i: nat, j: nat, content: Bytes)
    requires Shaped(fields, msg) && i < |fields| && j < Units(fields[i], Sent(fields[i], msg[i]))
    requires
      var unit := Unit(fields[i], Sent(fields[i], msg[i]), j);
      unit != [] && unit <= content && Woven(fields, msg, i, j + 1, content[|unit|..])
    ensures Woven(fields, msg, i, j, content)
  {
    hide Unit;
  }

  lemma WovenOut(fields: seq<Field>, msg: seq<Slot>)
    requires Shaped(fields, msg)
    ensures Woven(fields, msg, |fields|, 0, [])
  {
  }

  lemma NothingLeft(fields: seq<Field>, msg: seq<Slot>, i: nat)
    requires Shaped(fields, msg) && i < |fields|
    ensures
      var vs := Sent(fields[i], msg[i]);
      Remaining(fields, msg, i, Units(fields[i], vs)) == Remaining(fields, msg, i + 1, 0)
  {
    hide MessageBytes, FieldBytes, ItemShaped;
    NoUnits(fields[i], Sent(fields[i], msg[i]));
    if i + 1 < |fields| {
      FieldFirst(fields, msg, i + 1);
    } else {
      NoFields(fields, msg);
    }
    assert [] + MessageBytes(fields, msg, i + 1) == MessageBytes(fields, msg, i + 1);
  }

  lemma NoUnits(field: Field, vs: seq<Value>)
    requires forall v :: v in vs ==> ItemShaped(field.kind, v)
    ensures FieldBytes(field, vs, Units(field, vs)) == []
  {
  }

  lemma NoFields(fields: seq<Field>, msg: seq<Slot>)
    requires Shaped(fields, msg)
    ensures MessageBytes(fields, msg, |fields|) == []
  {
  }

  lemma FieldFirst(fields: seq<Field>, msg: seq<Slot>, i: nat)
    requires Shaped(fields, msg) && i < |fields|
    ensures MessageBytes(fields, msg, i) == FieldBytes(fields[i], Sent(fields[i], msg[i]), 0) + MessageBytes(fields, msg, i + 1)
  {
  }

  lemma UnitInFront(fields: seq<Field>, msg: seq<Slot>, i: nat, j: nat)
    requires Shaped(fields, msg) && i < |fields| && j < Units(fields[i], Sent(fields[i], msg[i]))
    ensures
      var unit, all := Unit(fields[i], Sent(fields[i], msg[i]), j), Remaining(fields, msg, i, j);
      unit != [] && unit <= all && all[|unit|..] == Remaining(fields, msg, i, j + 1)
  {
    hide UnitBody, MessageBytes;
    var vs := Sent(fields[i], msg[i]);
    var unit, more, rest := Unit(fields[i], vs, j), FieldBytes(fields[i], vs, j + 1), MessageBytes(fields, msg, i + 1);
    assert FieldBytes(fields[i], vs, j) == unit + more;
    assert unit + more + rest == unit + (more + rest);
  }

  /** The bytes carry a message that the encoder accepted, amid fields that it does not have. */
  ghost predicate Carries(content: Bytes, fields: seq<Field>, msg: seq<Slot>) {
    Shaped(fields, msg) && Fits(fields, msg) && Woven(fields, msg, 0, 0, content) && |content| < TWO_32
  }

  lemma HoldsCarries(content: Bytes, fields: seq<Field>, msg: seq<Slot>)
    requires Holds(content, fields, msg)
    ensures Carries(content, fields, msg)
  {
    PlainIsWoven(fields, msg, 0, 0);
    if fields == [] {
      assert MessageBytes(fields, msg, 0) == [];
    }
  }

  ghost predicate Settled(fields: seq<Field>, msg: seq<Slot>, i: nat, j: nat)
    requires Shaped(fields, msg)
  {
    At(fields, msg, i, j) && (i < |fields| ==> j < Units(fields[i], Sent(fields[i], msg[i])))
  }

  /** What the struct holds at that point; all that has come was terminated. */
  ghost predicate Filled(fields: seq<Field>, msg: seq<Slot>, dest: seq<Slot>, i: nat, j: nat)
    requires Shaped(fields, msg) && At(fields, msg, i, j) && |dest| == |fields|
  {
    && (forall k :: 0 <= k < i ==> dest[k] == CleanSlot(fields[k], msg[k]) && SlotTerminated(fields[k], msg[k]))
    && (i < |fields| ==> dest[i] == Received(fields[i], msg[i], j) && forall u :: 0 <= u < j ==> UnitTerminated(fields[i], msg[i], u))
    && (forall k :: i < k < |fields| ==> dest[k] == DefaultSlot(fields[k]))
  }

  ghost predicate AllSeen(fields: seq<Field>, seen: set<nat>, i: nat, j: nat) {
    forall k :: 0 <= k < |fields| && fields[k].rule.Required? && (k < i || (k == i && j > 0)) ==>
      RequiredIndex(fields, k) < MAX_REQUIRED_FIELDS ==> RequiredIndex(fields, k) in seen
  }

  /** The fixed-count array last met is complete, or is the one being filled. */
  ghost predicate FixedTracked(fields: seq<Field>, msg: seq<Slot>, fixed: int, size: nat, i: nat, j: nat)
    requires Shaped(fields, msg) && At(fields, msg, i, j)
  {
    && -1 <= fixed < |fields|
    && (fixed >= 0 ==> fields[fixed].rule.Fixed? && fixed <= i && (fixed < i ==> size == fields[fixed].rule.count))
    && (fixed == i ==> j > 0 && size == Got(fields[i], Sent(fields[i], msg[i]), j))
    && (i < |fields| && fields[i].rule.Fixed? && j > 0 ==> fixed == i)
  }

  ghost predicate OnTrack(fields: seq<Field>, msg: seq<Slot>, dest: seq<Slot>, seen: set<nat>, fixed: int, size: nat, i: nat, j: nat) {
    && Shaped(fields, msg) && At(fields, msg, i, j) && |dest| == |fields| && Filled(fields, msg, dest, i, j)
    && AllSeen(fields, seen, i, j) && FixedTracked(fields, msg, fixed, size, i, j)
  }

  /** From a complete field to the next one that has something to come. */
  lemma {:induction false} Settle(fields: seq<Field>, msg: seq<Slot>, dest: seq<Slot>, seen: set<nat>, fixed: int, size: nat, i: nat, j: nat, content: Bytes)
    returns (i': nat, j': nat)
    requires OnTrack(fields, msg, dest, seen, fixed, size, i, j) && WellFormed(fields) && Woven(fields, msg, i, j, content)
    ensures OnTrack(fields, msg, dest, seen, fixed, size, i', j') && Settled(fields, msg, i', j') && Woven(fields, msg, i', j', content)
    decreases |fields| - i
  {
    hide Woven;
    if i < |fields| && j == Units(fields[i], Sent(fields[i], msg[i])) {
      NextField(fields, msg, dest, seen, fixed, size, i, j);
      NextWoven(fields, msg, i, j, content);
      i', j' := Settle(fields, msg, dest, seen, fixed, size, i + 1, 0, content);
    } else {
      i', j' := i, j;
    }
  }

  lemma NextField(fields: seq<Field>, msg: seq<Slot>, dest: seq<Slot>, seen: set<nat>, fixed: int, size: nat, i: nat, j: nat)
    requires OnTrack(fields, msg, dest, seen, fixed, size, i, j) && WellFormed(fields)
    requires i < |fields| && j == Units(fields[i], Sent(fields[i], msg[i]))
    ensures OnTrack(fields, msg, dest, seen, fixed, size, i + 1, 0)
  {
    assert FieldWellFormed(fields[i]);
    ReceivedAll(fields[i], msg[i]);
    UnitsTerminated(fields[i], msg[i]);
  }

  lemma UnitsTerminated(field: Field, m: Slot)
    requires SlotShaped(field, m)
    ensures SlotTerminated(field, m) <==> forall u :: 0 <= u < Units(field, Sent(field, m)) ==> UnitTerminated(field, m, u)
  {
    var vs := Sent(field, m);
    if !Packed(field) {
      assert forall u :: 0 <= u < |vs| ==> (UnitTerminated(field, m, u) <==> ItemTerminated(field.kind, vs[u]));
    }
  }

  /** Looks for a field number, from the iterator's place round to it again. */
  method Find(fields: seq<Field>, start: nat, tag: nat) returns (found: bool, at: nat)
    requires fields != [] ==> start < |fields|
    ensures found ==> at < |fields| && fields[at].tag == tag
    ensures !found ==> at == start && forall k :: 0 <= k < |fields| ==> fields[k].tag != tag
  {
    found, at := false, start;
    if fields == [] {
      return;
    }
    ghost var wrapped := false;
    while true
      invariant at < |fields| && (wrapped ==> at < start) && (!wrapped ==> start <= at)
      invariant forall k :: start <= k < (if wrapped then |fields| else at) ==> fields[k].tag != tag
      invariant wrapped ==> forall k :: 0 <= k < at ==> fields[k].tag != tag
      decreases if wrapped then start - at else start + |fields| - at
    {
      if fields[at].tag == tag {
        found := true;
        return;
      }
      at := at + 1;
      if at == |fields| {
        at, wrapped := 0, true;
      }
      if at == start {
        return;
      }
    }
  }

  /** An unknown field is passed over: exactly its bytes, if they are there. */
  method SkipField(stream: IStream, wire: nat) returns (ok: bool)
    requires stream.Valid()
    modifies stream
    ensures stream.Valid() && stream.left <= old(stream.left)
    ensures ok ==>
      var n := old(stream.left) - stream.left;
      && UnknownSpan(wire, old(stream.Content()), n) && stream.Content() == old(stream.Content())[n..]
      && stream.pos + stream.left == old(stream.pos + stream.left)
    ensures !ok ==> forall n: nat :: !UnknownSpan(wire, old(stream.Content()), n)
  {
    hide EndsVarint, Delimited;
    if wire == 0 {
      ok := SkipVarint(stream);
    } else if wire == 2 {
      ok := SkipString(stream);
    } else if wire == 1 || wire == 5 {
      ghost var content := stream.Content();
      var n := if wire == 1 then 8 else 4;
      var bs;
      ok, bs := stream.Read(n);
      assert ok ==> stream.Content() == content[n..];
    } else {
      ok := false;
    }
  }

  method SkipString(stream: IStream) returns (ok: bool)
    requires stream.Valid()
    modifies stream
    ensures stream.Valid() && stream.left <= old(stream.left)
    ensures ok ==>
      var n := old(stream.left) - stream.left;
      && Delimited(old(stream.Content()), n) && stream.Content() == old(stream.Content())[n..]
      && stream.pos + stream.left == old(stream.pos + stream.left)
    ensures !ok ==> forall n: nat :: !Delimited(old(stream.Content()), n)
  {
    hide Accepts, Taken, Varint, Delimited;
    ghost var content := stream.Content();
    var size, bs;
    ok, size := stream.DecodeVarint32(0);
    if !ok {
      NoString(content);
      return;
    }
    ghost var rest := stream.Content();
    SpanOfString(content, |content| - |rest|, size);
    ok, bs := stream.Read(size);
    assert ok ==> stream.Content() == rest[size..];
  }

  lemma NoString(content: Bytes)
    requires forall k: nat :: !Accepts(content, k)
    ensures forall n: nat :: !Delimited(content, n)
  {
    hide Accepts, Taken;
  }

  lemma SpanOfString(content: Bytes, k: nat, size: nat)
    requires Accepts(content, k) && Taken(content, k) == size
    ensures k <= |content|
    ensures k + size <= |content| ==> Delimited(content, k + size) && content[k..][size..] == content[k + size..]
    ensures k + size > |content| ==> forall n: nat :: !Delimited(content, n)
  {
    hide Taken, Extends;
    if k + size <= |content| {
      assert PrefixAt(content, k, k + size);
    }
    forall l: nat | Accepts(content, l) ensures l == k {
      AcceptsOnce(content, k, l);
    }
  }

  method SkipVarint(stream: IStream) returns (ok: bool)
    requires stream.Valid()
    modifies stream
    ensures stream.Valid() && stream.left <= old(stream.left)
    ensures ok ==>
      var n := old(stream.left) - stream.left;
      && EndsVarint(old(stream.Content()), n) && stream.Content() == old(stream.Content())[n..]
      && stream.pos + stream.left == old(stream.pos + stream.left)
    ensures !ok ==> forall n: nat :: !EndsVarint(old(stream.Content()), n)
  {
    ghost var content, k := stream.Content(), 0;
    while true
      invariant stream.Valid() && stream.left <= old(stream.left) && stream.pos + stream.left == old(stream.pos + stream.left)
      invariant k == |content| - stream.left && stream.Content() == content[k..]
      invariant forall i :: 0 <= i < k ==> content[i] >= 128
      decreases stream.left
    {
      var byte;
      ok, byte := stream.ReadByte();
      if !ok {
        return;
      }
      assert byte == content[k] && content[k..][1..] == content[k + 1..];
      if byte < 128 {
        return;
      }
      k := k + 1;
    }
  }

  /** One field that was found: tracks required and fixed-count fields, and decodes it. */
  method Fill(stream: IStream, wire: nat, fields: seq<Field>, at: nat, dest: seq<Slot>, seen: set<nat>, fixed: int, size: nat,
              ghost msg: seq<Slot>, ghost i: nat, ghost j: nat)
    returns (ok: bool, dest': seq<Slot>, seen': set<nat>, fixed': int, size': nat, ghost entries: nat)
    requires stream.Valid() && WellFormed(fields) && Shaped(fields, dest) && at < |fields|
    requires -1 <= fixed < |fields| && (fixed >= 0 ==> fields[fixed].rule.Fixed? && size <= fields[fixed].rule.count)
    modifies stream
    ensures stream.Valid() && stream.left <= old(stream.left)
    ensures ok ==> stream.left < old(stream.left) && stream.pos + stream.left == old(stream.pos + stream.left)
    ensures Shaped(fields, dest')
    ensures -1 <= fixed' < |fields| && (fixed' >= 0 ==> fields[fixed'].rule.Fixed? && size' <= fields[fixed'].rule.count)
    ensures ok ==>
      var n := old(stream.left) - stream.left;
      && FieldSpan(fields[at], wire, old(stream.Content()), n, entries) && stream.Content() == old(stream.Content())[n..]
      && Marks(fields, at, seen, seen') && CountsOn(fields, at, entries, fixed, size, fixed', size')
    ensures Coming(old(stream.Content()), wire, fields, at, dest, seen, fixed, size, msg, i, j) ==>
              && (ok <==> UnitTerminated(fields[i], msg[i], j))
              && (ok ==> OnTrack(fields, msg, dest', seen', fixed', size', i, j + 1)
                         && stream.Content() == old(stream.Content())[|UnitBody(fields[i], Sent(fields[i], msg[i]), j)|..])
    decreases fields, 0
  {
    hide OnTrack, UnitComes, UnitTerminated, UnitBody, SlotFits, Received, WellFormed, SlotShaped, FieldWellFormed, FieldSpan;
    ghost var good := Coming(stream.Content(), wire, fields, at, dest, seen, fixed, size, msg, i, j);
    var field := fields[at];
    AboutField(fields, dest, at);
    dest', seen', fixed', size', entries := dest, seen, fixed, size, 0;
    var count := if field.rule.Repeated? then |dest[at].items| else 0;
    if good {
      Arrives(stream.Content(), wire, fields, at, dest, seen, fixed, size, msg, i, j);
    }
    if field.rule.Fixed? {
      if fixed' != at {
        if fixed' >= 0 && size' != fields[fixed'].rule.count {
          return false, dest, seen, fixed, size, 0;
        }
        fixed', size' := at, 0;
      }
      count := size';
    }
    if field.rule.Required? && RequiredIndex(fields, at) < MAX_REQUIRED_FIELDS {
      seen' := seen' + {RequiredIndex(fields, at)};
    }
    var slot;
    ok, slot, count, entries := DecodeStaticField(stream, wire, field, dest[at], count, if good then msg[i] else dest[at], j);
    if !ok {
      return false, dest, seen, fixed, size, 0;
    }
    Update(fields, dest, at, slot);
    dest' := dest[at := slot];
    size' := if field.rule.Fixed? then count else size';
    if good {
      Advance(fields, msg, dest, seen, fixed, size, i, j, slot, seen', fixed', size');
    }
  }

  /** The bit of a required field, for the first 64 of them. */
  predicate Marks(fields: seq<Field>, at: nat, seen: set<nat>, seen': set<nat>)
    requires at < |fields|
  {
    seen' == seen + if fields[at].rule.Required? && RequiredIndex(fields, at) < MAX_REQUIRED_FIELDS then {RequiredIndex(fields, at)} else {}
  }

  lemma AboutField(fields: seq<Field>, dest: seq<Slot>, at: nat)
    requires WellFormed(fields) && Shaped(fields, dest) && at < |fields|
    ensures |dest| == |fields| && FieldWellFormed(fields[at]) && SlotShaped(fields[at], dest[at])
    ensures Array(fields[at]) ==>
              if fields[at].rule.Repeated? then dest[at].Many? else dest[at].All? && |dest[at].items| == fields[at].rule.count
  {
  }

  lemma Update(fields: seq<Field>, dest: seq<Slot>, at: nat, slot: Slot)
    requires Shaped(fields, dest) && at < |fields| && SlotShaped(fields[at], slot)
    ensures Shaped(fields, dest[at := slot])
    ensures fields[at].rule.Fixed? ==> slot.All? && |slot.items| == fields[at].rule.count
  {
  }

  /** The entries that an array has are counted in the slot, or for a fixed count by the loop. */
  lemma Arrives(content: Bytes, wire: nat, fields: seq<Field>, at: nat, dest: seq<Slot>, seen: set<nat>, fixed: int, size: nat,
                msg: seq<Slot>, i: nat, j: nat)
    requires Coming(content, wire, fields, at, dest, seen, fixed, size, msg, i, j)
    ensures
      var field := fields[i];
      && |msg| == |fields| == |dest|
      && (field.rule.Fixed? && fixed != i ==> j == 0 && (fixed >= 0 ==> fixed < |fields| && fields[fixed].rule.Fixed? && size == fields[fixed].rule.count))
      && (Array(field) ==> dest[i].Many? || dest[i].All?)
      && var count := if field.rule.Repeated? then |dest[i].items| else if field.rule.Fixed? && fixed == i then size else 0;
         UnitComes(content, field, msg[i], j, wire, dest[i], count)
  {
    hide ItemShaped, UnitBody, DefaultSlot;
    assert SlotShaped(fields[i], msg[i]);
    if Array(fields[i]) {
      assert dest[i] == Received(fields[i], msg[i], j);
      EntriesSoFar(fields[i], msg[i], j);
    }
  }

  lemma EntriesSoFar(field: Field, m: Slot, j: nat)
    requires SlotShaped(field, m) && Array(field) && j <= Units(field, Sent(field, m))
    ensures
      var slot := Received(field, m, j);
      && (field.rule.Repeated? ==> slot.Many? && |slot.items| == Got(field, Sent(field, m), j))
      && (field.rule.Fixed? ==> slot.All?)
  {
  }

  lemma Advance(fields: seq<Field>, msg: seq<Slot>, dest: seq<Slot>, seen: set<nat>, fixed: int, size: nat, i: nat, j: nat,
                slot: Slot, seen': set<nat>, fixed': int, size': nat)
    requires OnTrack(fields, msg, dest, seen, fixed, size, i, j) && Settled(fields, msg, i, j) && i < |fields|
    requires slot == Received(fields[i], msg[i], j + 1) && UnitTerminated(fields[i], msg[i], j)
    requires seen <= seen' && (fields[i].rule.Required? && RequiredIndex(fields, i) < MAX_REQUIRED_FIELDS ==> RequiredIndex(fields, i) in seen')
    requires if fields[i].rule.Fixed? then fixed' == i && size' == Got(fields[i], Sent(fields[i], msg[i]), j + 1) else fixed' == fixed && size' == size
    ensures OnTrack(fields, msg, dest[i := slot], seen', fixed', size', i, j + 1)
  {
    hide ItemShaped, SlotShaped, CleanSlot, DefaultSlot, Received, UnitTerminated, SlotTerminated, Shaped, Units, Sent, Got, RequiredIndex;
    ShapeOf(fields, msg, i);
    var next := dest[i := slot];
    assert forall k :: 0 <= k < |fields| && k != i ==> next[k] == dest[k];
  }

  lemma ShapeOf(fields: seq<Field>, msg: seq<Slot>, i: nat)
    requires Shaped(fields, msg) && i < |fields|
    ensures |fields| == |msg| && SlotShaped(fields[i], msg[i])
  {
  }

  /** The next unit of the message is at the front of the stream. */
  ghost predicate Coming(content: Bytes, wire: nat, fields: seq<Field>, at: nat, dest: seq<Slot>, seen: set<nat>, fixed: int, size: nat,
                         msg: seq<Slot>, i: nat, j: nat)
  {
    && OnTrack(fields, msg, dest, seen, fixed, size, i, j) && Settled(fields, msg, i, j) && i == at < |fields|
    && SlotFits(fields[i], msg[i]) && wire == UnitWire(fields[i])
    && UnitBody(fields[i], Sent(fields[i], msg[i]), j) <= content && |content| < TWO_32
  }

  /** ... and behind it everything that is left. */
  ghost predicate AllComing(content: Bytes, wire: nat, fields: seq<Field>, at: nat, dest: seq<Slot>, seen: set<nat>, fixed: int, size: nat,
                            msg: seq<Slot>, i: nat, j: nat)
  {
    && Shaped(fields, msg) && Coming(content, wire, fields, at, dest, seen, fixed, size, msg, i, j)
    && Woven(fields, msg, i, j + 1, content[|UnitBody(fields[i], Sent(fields[i], msg[i]), j)|..])
  }

  lemma Start(fields: seq<Field>, msg: seq<Slot>)
    requires Shaped(fields, msg)
    ensures OnTrack(fields, msg, Defaults(fields), {}, -1, 0, 0, 0)
  {
  }

  /** No field that the message does not have comes next: then the next unit does, a tag and a
      body in front of what is left; or the content is at its end. */
  lemma NextUnit(content: Bytes, fields: seq<Field>, msg: seq<Slot>, i: nat, j: nat)
    requires Shaped(fields, msg) && Fits(fields, msg) && WellFormed(fields) && Settled(fields, msg, i, j)
    requires Woven(fields, msg, i, j, content) && !Foreign(fields, msg, i, j, content)
    ensures content != [] <==> i < |fields|
    ensures i < |fields| ==>
      var f, vs := fields[i], Sent(fields[i], msg[i]);
      && SlotFits(f, msg[i]) && 0 < f.tag < 0x2000_0000 && UnitWire(f) < 8
      && Tag(f.tag, UnitWire(f)) <= content && UnitBody(f, vs, j) <= content[|Tag(f.tag, UnitWire(f))|..]
      && Woven(fields, msg, i, j + 1, content[|Tag(f.tag, UnitWire(f))|..][|UnitBody(f, vs, j)|..])
  {
    hide Varint, SlotFits, Fits, Shaped, WellFormed, UnitBody, SlotShaped, UnknownFirst;
    if i < |fields| {
      FieldFits(fields, msg, i);
      var f, vs := fields[i], Sent(fields[i], msg[i]);
      var tag, body := Tag(f.tag, UnitWire(f)), UnitBody(f, vs, j);
      assert Unit(f, vs, j) == tag + body;
      assert content[|tag|..][|body|..] == content[|tag + body|..];
      assert (tag + body)[..|tag|] == tag && (tag + body)[|tag|..] == body;
    }
  }

  lemma FieldFits(fields: seq<Field>, msg: seq<Slot>, i: nat)
    requires Shaped(fields, msg) && Fits(fields, msg) && WellFormed(fields) && i < |fields|
    ensures |fields| == |msg| && SlotShaped(fields[i], msg[i]) && SlotFits(fields[i], msg[i]) && FieldWellFormed(fields[i])
  {
  }

  /** A text without a terminator is refused as soon as it comes. */
  lemma Stuck(fields: seq<Field>, msg: seq<Slot>, i: nat, j: nat)
    requires Shaped(fields, msg) && Settled(fields, msg, i, j) && i < |fields| && !UnitTerminated(fields[i], msg[i], j)
    ensures !Terminated(fields, msg)
  {
    UnitsTerminated(fields[i], msg[i]);
  }

  /** At the end the struct holds the message, and every check of the end passes. */
  lemma Finish(fields: seq<Field>, msg: seq<Slot>, dest: seq<Slot>, seen: set<nat>, fixed: int, size: nat)
    requires OnTrack(fields, msg, dest, seen, fixed, size, |fields|, 0)
    ensures dest == Clean(fields, msg) && Terminated(fields, msg)
    ensures fixed >= 0 ==> size == fields[fixed].rule.count
    ensures forall r :: 0 <= r < RequiredCount(fields) ==> r in seen
  {
    forall r | 0 <= r < RequiredCount(fields) ensures r in seen {
      var k := RequiredAt(fields, |fields|, r);
    }
  }

  /** How many required fields the decoder keeps track of. */
  function RequiredCount(fields: seq<Field>): nat {
    var n := RequiredIndex(fields, |fields|);
    if n > MAX_REQUIRED_FIELDS then MAX_REQUIRED_FIELDS else n
  }

  /** One field that was found, and on to the next that has something to send. */
  method FillAndSettle(stream: IStream, wire: nat, fields: seq<Field>, at: nat, dest: seq<Slot>, seen: set<nat>, fixed: int, size: nat,
                       ghost msg: seq<Slot>, ghost i: nat, ghost j: nat)
    returns (ok: bool, dest': seq<Slot>, seen': set<nat>, fixed': int, size': nat, ghost i': nat, ghost j': nat, ghost entries: nat)
    requires stream.Valid() && WellFormed(fields) && Shaped(fields, dest) && at < |fields|
    requires -1 <= fixed < |fields| && (fixed >= 0 ==> fields[fixed].rule.Fixed? && size <= fields[fixed].rule.count)
    modifies stream
    ensures stream.Valid() && stream.left <= old(stream.left)
    ensures ok ==> stream.left < old(stream.left) && stream.pos + stream.left == old(stream.pos + stream.left)
    ensures Shaped(fields, dest')
    ensures -1 <= fixed' < |fields| && (fixed' >= 0 ==> fields[fixed'].rule.Fixed? && size' <= fields[fixed'].rule.count)
    ensures ok ==>
      var n := old(stream.left) - stream.left;
      && FieldSpan(fields[at], wire, old(stream.Content()), n, entries) && stream.Content() == old(stream.Content())[n..]
      && Marks(fields, at, seen, seen') && CountsOn(fields, at, entries, fixed, size, fixed', size')
    ensures AllComing(old(stream.Content()), wire, fields, at, dest, seen, fixed, size, msg, i, j) ==>
              if ok then OnTrack(fields, msg, dest', seen', fixed', size', i', j') && Settled(fields, msg, i', j') && Woven(fields, msg, i', j', stream.Content())
              else !Terminated(fields, msg)
    decreases fields, 1
  {
    hide OnTrack, UnitTerminated, UnitBody, SlotFits, WellFormed, Terminated, Shaped, Settled, Woven, FieldSpan, Marks, CountsOn;
    ghost var good := AllComing(stream.Content(), wire, fields, at, dest, seen, fixed, size, msg, i, j);
    i', j' := i, j;
    ok, dest', seen', fixed', size', entries := Fill(stream, wire, fields, at, dest, seen, fixed, size, msg, i, j);
    if good {
      if ok {
        i', j' := Settle(fields, msg, dest', seen', fixed', size', i, j + 1, stream.Content());
      } else {
        Stuck(fields, msg, i, j);
      }
    }
  }

  // ----- what was read, for any bytes -----

  /** A required field is marked because its tag was there. */
  ghost predicate SeenIn(fields: seq<Field>, parts: seq<Part>, seen: set<nat>) {
    forall r :: r in seen ==> exists k: nat, i: nat :: SeenAs(fields, parts, r, k, i)
  }

  ghost predicate SeenAs(fields: seq<Field>, parts: seq<Part>, r: nat, k: nat, i: nat) {
    k < |fields| && fields[k].rule.Required? && RequiredIndex(fields, k) == r && i < |parts| && parts[i].tag == fields[k].tag
  }

  /** The first `m` bytes are the parts read so far, and the loop knows what they were. */
  ghost predicate Parsed(fields: seq<Field>, bs: Bytes, parts: seq<Part>, m: nat, seen: set<nat>, fixed: int, size: nat) {
    ParsesTo(fields, bs, parts, m) && SeenIn(fields, parts, seen) && Counted(fields, parts, fixed, size)
  }

  lemma NothingRead(fields: seq<Field>, bs: Bytes)
    ensures Parsed(fields, bs, [], 0, {}, -1, 0)
  {
    NothingParsed(fields, bs);
    NothingCounted(fields);
  }

  lemma SeenGrows(fields: seq<Field>, parts: seq<Part>, part: Part, seen: set<nat>)
    requires SeenIn(fields, parts, seen)
    ensures SeenIn(fields, parts + [part], seen)
  {
    forall r | r in seen ensures exists k: nat, i: nat :: SeenAs(fields, parts + [part], r, k, i) {
      var k: nat, i: nat :| SeenAs(fields, parts, r, k, i);
      assert SeenAs(fields, parts + [part], r, k, i);
    }
  }

  lemma SeenNext(fields: seq<Field>, parts: seq<Part>, seen: set<nat>, at: nat, part: Part, seen': set<nat>)
    requires SeenIn(fields, parts, seen) && at < |fields| && part.tag == fields[at].tag && Marks(fields, at, seen, seen')
    ensures SeenIn(fields, parts + [part], seen')
  {
    SeenGrows(fields, parts, part, seen);
    if fields[at].rule.Required? {
      assert SeenAs(fields, parts + [part], RequiredIndex(fields, at), at, |parts|);
    }
  }

  /** A field of the message has been read ... */
  lemma ReadKnown(fields: seq<Field>, bs: Bytes, parts: seq<Part>, m: nat, seen: set<nat>, fixed: int, size: nat,
                  at: nat, wire: nat, entries: nat, k: nat, n: nat, seen': set<nat>, fixed': int, size': nat)
    requires Parsed(fields, bs, parts, m, seen, fixed, size) && WellFormed(fields) && at < |fields| && wire < 8 && m + k + n <= |bs|
    requires Accepts(bs[m..], k) && 0 < Taken(bs[m..], k) == 8 * fields[at].tag + wire && FieldSpan(fields[at], wire, bs[m + k..], n, entries)
    requires Marks(fields, at, seen, seen') && CountsOn(fields, at, entries, fixed, size, fixed', size')
    ensures Parsed(fields, bs, parts + [Part(fields[at].tag, wire, entries)], m + k + n, seen', fixed', size')
  {
    hide Accepts, Taken, FieldSpan, ParsesTo, SeenIn, Counted, CountsOn, Marks, FieldWellFormed;
    var part := Part(fields[at].tag, wire, entries);
    assert bs[m..][k..] == bs[m + k..];
    assert forall i :: 0 <= i < |fields| && fields[i].tag == part.tag ==> i == at;
    assert PartAt(fields, bs[m..], part, k, n);
    OneMorePart(fields, bs, parts, m, part, k, n);
    SeenNext(fields, parts, seen, at, part, seen');
    CountedNext(fields, parts, fixed, size, at, part, fixed', size');
  }

  /** ... or one that it does not have. */
  lemma ReadUnknown(fields: seq<Field>, bs: Bytes, parts: seq<Part>, m: nat, seen: set<nat>, fixed: int, size: nat,
                    tag: nat, wire: nat, k: nat, n: nat)
    requires Parsed(fields, bs, parts, m, seen, fixed, size) && !Known(fields, tag) && wire < 8 && m + k + n <= |bs|
    requires Accepts(bs[m..], k) && 0 < Taken(bs[m..], k) == 8 * tag + wire && UnknownSpan(wire, bs[m + k..], n)
    ensures Parsed(fields, bs, parts + [Part(tag, wire, 0)], m + k + n, seen, fixed, size)
  {
    hide Accepts, Taken, UnknownSpan, ParsesTo, SeenIn, Counted;
    var part := Part(tag, wire, 0);
    assert bs[m..][k..] == bs[m + k..];
    assert PartAt(fields, bs[m..], part, k, n);
    OneMorePart(fields, bs, parts, m, part, k, n);
    SeenGrows(fields, parts, part, seen);
    CountedUnknown(fields, parts, fixed, size, part);
  }

  lemma AllMarked(fields: seq<Field>, parts: seq<Part>, seen: set<nat>)
    requires SeenIn(fields, parts, seen) && forall r :: 0 <= r < RequiredCount(fields) ==> r in seen
    ensures HasRequired(fields, parts)
  {
    forall k | 0 <= k < |fields| && fields[k].rule.Required? && RequiredBefore(fields, k) < 64
      ensures exists i :: 0 <= i < |parts| && parts[i].tag == fields[k].tag
    {
      RequiredIndexIs(fields, k);
      RequiredRises(fields, k, |fields|);
      assert RequiredIndex(fields, k) in seen;
      var l: nat, i: nat :| SeenAs(fields, parts, RequiredIndex(fields, k), l, i);
      if l < k {
        RequiredRises(fields, l, k);
      } else if k < l {
        RequiredRises(fields, k, l);
      }
      assert parts[i].tag == fields[k].tag;
    }
  }

  /** The checks of the end. */
  lemma ReadAll(fields: seq<Field>, bs: Bytes, parts: seq<Part>, m: nat, seen: set<nat>, fixed: int, size: nat)
    requires Parsed(fields, bs, parts, m, seen, fixed, size) && m <= |bs| && EndAt(bs[m..])
    requires (fixed >= 0 ==> size == fields[fixed].rule.count) && forall r :: 0 <= r < RequiredCount(fields) ==> r in seen
    ensures Sound(fields, bs)
  {
    hide ParsesTo, EndAt, SeenIn, HasRequired, FixedComplete;
    AllMarked(fields, parts, seen);
    CountedEnds(fields, parts, fixed, size);
    assert Parses(fields, bs, parts);
  }

  /** The next field is one that the message does not have. */
  ghost predicate Foreign(fields: seq<Field>, msg: seq<Slot>, i: nat, j: nat, content: Bytes) {
    Shaped(fields, msg) && At(fields, msg, i, j) && exists k: nat, n: nat :: UnknownFirst(fields, msg, i, j, content, k, n)
  }

  /** It has a tag, of `k` bytes if that is where an accepted number ends ... */
  lemma ForeignTag(fields: seq<Field>, msg: seq<Slot>, i: nat, j: nat, content: Bytes, k: nat, ok: bool, eof: bool)
    requires Foreign(fields, msg, i, j, content)
    requires ok ==> Accepts(content, k)
    requires eof ==> exists l: nat :: Accepts(content, l) && Taken(content, l) == 0
    requires !ok && !eof ==> forall l: nat :: !Accepts(content, l)
    ensures !eof && ok && !Known(fields, Taken(content, k) / 8)
  {
    hide Accepts, Taken, Woven, UnknownSpan;
    var k0: nat, n: nat :| UnknownFirst(fields, msg, i, j, content, k0, n);
    forall l: nat | Accepts(content, l) ensures l == k0 {
      AcceptsOnce(content, l, k0);
    }
  }

  /** ... and a value, behind which the message goes on. */
  lemma ForeignBody(fields: seq<Field>, msg: seq<Slot>, i: nat, j: nat, content: Bytes, k: nat, ok: bool, n: nat)
    requires Foreign(fields, msg, i, j, content) && Accepts(content, k) && k <= |content|
    requires ok ==> UnknownSpan(Taken(content, k) % 8, content[k..], n) && n <= |content[k..]|
    requires !ok ==> forall l: nat :: !UnknownSpan(Taken(content, k) % 8, content[k..], l)
    ensures Shaped(fields, msg) && At(fields, msg, i, j) && ok && Woven(fields, msg, i, j, content[k..][n..])
  {
    hide Accepts, Taken, Woven, UnknownSpan;
    var k0: nat, n0: nat :| UnknownFirst(fields, msg, i, j, content, k0, n0);
    AcceptsOnce(content, k, k0);
    if ok {
      UnknownOnce(Taken(content, k) % 8, content[k..], n, n0);
      assert content[k..][n..] == content[k + n..];
    }
  }

  lemma Ended(content: Bytes)
    requires content == [] || exists k: nat :: Accepts(content, k) && Taken(content, k) == 0
    ensures EndAt(content)
  {
  }

  lemma FoundIsKnown(fields: seq<Field>, tag: nat, found: bool, at: nat)
    requires if found then at < |fields| && fields[at].tag == tag else forall k :: 0 <= k < |fields| ==> fields[k].tag != tag
    ensures Known(fields, tag) <==> found
  {
  }

  /** The message goes on with this content, and the struct is in step. */
  ghost predicate Underway(fields: seq<Field>, msg: seq<Slot>, dest: seq<Slot>, seen: set<nat>, fixed: int, size: nat, i: nat, j: nat, content: Bytes) {
    && Shaped(fields, msg) && At(fields, msg, i, j) && OnTrack(fields, msg, dest, seen, fixed, size, i, j)
    && Settled(fields, msg, i, j) && Woven(fields, msg, i, j, content) && Fits(fields, msg) && |content| < TWO_32
  }

  /** Behind a tag that the message does not have. */
  method PassUnknown(stream: IStream, fields: seq<Field>, wire: nat, tag: nat, ghost here: Bytes, ghost k: nat,
                     ghost bs: Bytes, ghost parts: seq<Part>, ghost m: nat, ghost seen: set<nat>, ghost fixed: int, ghost size: nat,
                     ghost unknown: bool, ghost msg: seq<Slot>, ghost dest: seq<Slot>, ghost i: nat, ghost j: nat)
    returns (ok: bool, ghost m': nat)
    requires stream.Valid() && m <= |bs| && here == bs[m..] && k <= |here| && stream.Content() == here[k..]
    requires Accepts(here, k) && 0 < Taken(here, k) == 8 * tag + wire && wire < 8 && !Known(fields, tag)
    requires Parsed(fields, bs, parts, m, seen, fixed, size)
    requires unknown ==> Underway(fields, msg, dest, seen, fixed, size, i, j, here) && Foreign(fields, msg, i, j, here)
    modifies stream
    ensures stream.Valid() && stream.left <= old(stream.left) && (unknown ==> ok)
    ensures ok ==> stream.pos + stream.left == old(stream.pos + stream.left)
    ensures ok ==> m' == |bs| - stream.left && stream.Content() == bs[m'..]
    ensures ok ==> Parsed(fields, bs, parts + [Part(tag, wire, 0)], m', seen, fixed, size)
    ensures unknown ==> Underway(fields, msg, dest, seen, fixed, size, i, j, stream.Content())
  {
    hide Shaped, Woven, Parsed, Accepts, Taken, UnknownSpan, Known, Foreign, At, OnTrack, Settled, Fits;
    ghost var rest := stream.Content();
    ok := SkipField(stream, wire);
    ghost var n := |rest| - stream.left;
    m' := m + k + n;
    if unknown {
      ForeignBody(fields, msg, i, j, here, k, ok, n);
    }
    if ok {
      Behind(bs, m, k, n);
      ReadUnknown(fields, bs, parts, m, seen, fixed, size, tag, wire, k, n);
    }
  }

  lemma Behind(bs: Bytes, m: nat, k: nat, n: nat)
    requires m + k + n <= |bs|
    ensures bs[m..][k..] == bs[m + k..] && bs[m + k..][n..] == bs[m + k + n..]
  {
  }

  /** Behind a tag of one of the fields. */
  method TakeKnown(stream: IStream, wire: nat, fields: seq<Field>, at: nat, dest: seq<Slot>, seen: set<nat>, fixed: int, size: nat,
                   ghost here: Bytes, ghost k: nat, ghost bs: Bytes, ghost parts: seq<Part>, ghost m: nat,
                   ghost good: bool, ghost msg: seq<Slot>, ghost i: nat, ghost j: nat)
    returns (ok: bool, dest': seq<Slot>, seen': set<nat>, fixed': int, size': nat, ghost i': nat, ghost j': nat, ghost part: Part, ghost m': nat)
    requires stream.Valid() && WellFormed(fields) && Shaped(fields, dest) && at < |fields|
    requires -1 <= fixed < |fields| && (fixed >= 0 ==> fields[fixed].rule.Fixed? && size <= fields[fixed].rule.count)
    requires m <= |bs| && here == bs[m..] && k <= |here| && stream.Content() == here[k..]
    requires Accepts(here, k) && 0 < Taken(here, k) == 8 * fields[at].tag + wire && wire < 8
    requires Parsed(fields, bs, parts, m, seen, fixed, size)
    requires good ==> Underway(fields, msg, dest, seen, fixed, size, i, j, here) && AllComing(stream.Content(), wire, fields, at, dest, seen, fixed, size, msg, i, j)
    modifies stream
    ensures stream.Valid() && stream.left <= old(stream.left)
    ensures ok ==> stream.left < old(stream.left) && stream.pos + stream.left == old(stream.pos + stream.left)
    ensures Shaped(fields, dest')
    ensures -1 <= fixed' < |fields| && (fixed' >= 0 ==> fields[fixed'].rule.Fixed? && size' <= fields[fixed'].rule.count)
    ensures ok ==> m' == |bs| - stream.left && stream.Content() == bs[m'..] && Parsed(fields, bs, parts + [part], m', seen', fixed', size')
    ensures good ==> if ok then Underway(fields, msg, dest', seen', fixed', size', i', j', stream.Content()) else !Terminated(fields, msg)
    decreases fields, 2
  {
    hide Shaped, WellFormed, OnTrack, Terminated, Settled, Woven, Parsed, Accepts, Taken, FieldSpan, Marks, CountsOn, AllComing, Fits;
    ghost var rest, entries := stream.Content(), 0;
    ok, dest', seen', fixed', size', i', j', entries := FillAndSettle(stream, wire, fields, at, dest, seen, fixed, size, msg, i, j);
    ghost var n := |rest| - stream.left;
    part, m' := Part(fields[at].tag, wire, entries), m + k + n;
    if ok {
      Behind(bs, m, k, n);
      ReadKnown(fields, bs, parts, m, seen, fixed, size, at, wire, entries, k, n, seen', fixed', size');
      if good {
        TrackIsShaped(fields, msg, dest', seen', fixed', size', i', j');
      }
    }
  }

  lemma TrackIsShaped(fields: seq<Field>, msg: seq<Slot>, dest: seq<Slot>, seen: set<nat>, fixed: int, size: nat, i: nat, j: nat)
    requires OnTrack(fields, msg, dest, seen, fixed, size, i, j)
    ensures Shaped(fields, msg) && At(fields, msg, i, j)
  {
  }

  /** What a tag tells, when the message goes on: one of its fields, or none. */
  lemma TagTells(fields: seq<Field>, msg: seq<Slot>, dest: seq<Slot>, seen: set<nat>, fixed: int, size: nat, i: nat, j: nat,
                 here: Bytes, k: nat, wire: nat, tag: nat, at: nat)
    requires Underway(fields, msg, dest, seen, fixed, size, i, j, here) && WellFormed(fields) && !Foreign(fields, msg, i, j, here) && here != []
    requires i < |fields| ==> wire == UnitWire(fields[i]) && tag == fields[i].tag && k == |Tag(tag, wire)| <= |here|
    requires k <= |here|
    ensures i < |fields| && Known(fields, tag)
    ensures at < |fields| && fields[at].tag == tag ==> AllComing(here[k..], wire, fields, at, dest, seen, fixed, size, msg, i, j)
  {
    hide OnTrack, Woven, Foreign, WellFormed, Fits, SlotFits, UnitBody;
    NextUnit(here, fields, msg, i, j);
    if at < |fields| && fields[at].tag == tag {
      SameTag(fields, i, at);
    }
  }

  method NextTag(stream: IStream, fields: seq<Field>, ghost msg: seq<Slot>, ghost dest: seq<Slot>, ghost seen: set<nat>, ghost fixed: int,
                 ghost size: nat, ghost i: nat, ghost j: nat, ghost good: bool, ghost unknown: bool)
    returns (ok: bool, eof: bool, wire: nat, tag: nat)
    requires stream.Valid() && stream.left > 0 && WellFormed(fields)
    requires good ==> Underway(fields, msg, dest, seen, fixed, size, i, j, stream.Content())
    requires unknown <==> good && Foreign(fields, msg, i, j, stream.Content())
    modifies stream
    ensures stream.Valid() && stream.left <= old(stream.left) && (ok || eof ==> stream.pos + stream.left == old(stream.pos + stream.left))
    ensures eof ==> !ok && exists k: nat :: Accepts(old(stream.Content()), k) && Taken(old(stream.Content()), k) == 0
    ensures ok ==>
      var here, k := old(stream.Content()), old(stream.left) - stream.left;
      && k > 0 && Accepts(here, k) && 0 < Taken(here, k) == 8 * tag + wire && wire < 8 && stream.Content() == here[k..]
      && (good && !unknown ==>
            forall at: nat :: at < |fields| && fields[at].tag == tag ==> AllComing(stream.Content(), wire, fields, at, dest, seen, fixed, size, msg, i, j))
    ensures good ==> ok && (unknown <==> !Known(fields, tag))
  {
    hide Shaped, WellFormed, Accepts, Taken, Known, Foreign, AllComing, OnTrack, Settled, Woven, UnitBody, SlotFits, Fits, Varint;
    ghost var here := stream.Content();
    ghost var plain := good && !unknown;
    if plain {
      NextUnit(here, fields, msg, i, j);
    }
    ok, eof, wire, tag := DecodeTag(stream, if plain then fields[i].tag else 0, if plain then UnitWire(fields[i]) else 0);
    ghost var k := |here| - stream.left;
    if unknown {
      ForeignTag(fields, msg, i, j, here, k, ok, eof);
    }
    if plain {
      forall at: nat | at < |fields| && fields[at].tag == tag
        ensures AllComing(here[k..], wire, fields, at, dest, seen, fixed, size, msg, i, j)
      {
        TagTells(fields, msg, dest, seen, fixed, size, i, j, here, k, wire, tag, at);
      }
      TagTells(fields, msg, dest, seen, fixed, size, i, j, here, k, wire, tag, 0);
    }
  }

  lemma NowStarts(fields: seq<Field>, msg: seq<Slot>, content: Bytes) returns (i: nat, j: nat)
    requires Carries(content, fields, msg) && WellFormed(fields)
    ensures Underway(fields, msg, Defaults(fields), {}, -1, 0, i, j, content)
  {
    hide OnTrack, Woven, WellFormed, Settled;
    Start(fields, msg);
    i, j := Settle(fields, msg, Defaults(fields), {}, -1, 0, 0, 0, content);
    TrackIsShaped(fields, msg, Defaults(fields), {}, -1, 0, i, j);
  }

  /** Nothing is left: the message is whole. */
  lemma NowEnds(fields: seq<Field>, msg: seq<Slot>, dest: seq<Slot>, seen: set<nat>, fixed: int, size: nat, i: nat, j: nat)
    requires Underway(fields, msg, dest, seen, fixed, size, i, j, []) && WellFormed(fields)
    ensures dest == Clean(fields, msg) && Terminated(fields, msg)
    ensures -1 <= fixed < |fields| && (fixed >= 0 ==> fields[fixed].rule.Fixed? && size == fields[fixed].rule.count)
    ensures forall r :: 0 <= r < RequiredCount(fields) ==> r in seen
  {
    hide OnTrack, Woven, WellFormed, Fits, UnitBody, Accepts;
    assert !Foreign(fields, msg, i, j, []) by { NothingForeign(fields, msg, i, j); }
    NextUnit([], fields, msg, i, j);
    AtTheEnd(fields, msg, dest, seen, fixed, size, i, j);
    Finish(fields, msg, dest, seen, fixed, size);
  }

  lemma NothingForeign(fields: seq<Field>, msg: seq<Slot>, i: nat, j: nat)
    requires Shaped(fields, msg) && At(fields, msg, i, j)
    ensures !Foreign(fields, msg, i, j, [])
  {
    hide Woven, Taken, Accepts;
    NothingAccepted([]);
  }

  lemma AtTheEnd(fields: seq<Field>, msg: seq<Slot>, dest: seq<Slot>, seen: set<nat>, fixed: int, size: nat, i: nat, j: nat)
    requires OnTrack(fields, msg, dest, seen, fixed, size, i, j) && i == |fields|
    ensures j == 0 && -1 <= fixed < |fields| && (fixed >= 0 ==> fields[fixed].rule.Fixed?)
  {
  }

  /** Decodes fields until the stream is used up or a zero ends the message. Whatever the bytes,
      it succeeds only if their parse has the required fields and complete arrays; and a message
      comes back whatever fields it does not have stand between its own. */
  method DecodeNoinit(stream: IStream, fields: seq<Field>, dest: seq<Slot>, ghost msg: seq<Slot>) returns (ok: bool, result: seq<Slot>)
    requires stream.Valid() && WellFormed(fields) && Shaped(fields, dest)
    modifies stream
    ensures stream.Valid() && stream.left <= old(stream.left)
    ensures ok ==> stream.pos + stream.left == old(stream.pos + stream.left)
    ensures Shaped(fields, result)
    ensures ok ==> Sound(fields, old(stream.Content()))
    ensures Carries(old(stream.Content()), fields, msg) && dest == Defaults(fields) ==>
              && (ok <==> Terminated(fields, msg))
              && (ok ==> result == Clean(fields, msg) && stream.left == 0)
    decreases fields, 3
  {
    hide Varint, Shaped, WellFormed, Terminated, Parsed, Accepts, Taken, Sound, EndAt, Known, Carries, Underway, Foreign, AllComing, OnTrack, Settled, Woven, Clean;
    ghost var good := Carries(stream.Content(), fields, msg) && dest == Defaults(fields);
    ghost var bs, parts: seq<Part>, m: nat := stream.Content(), [], 0;
    result := dest;
    var seen, fixed, size: nat, at: nat := {}, -1, 0, 0;
    ghost var i: nat, j: nat := 0, 0;
    NothingRead(fields, bs);
    if good {
      i, j := NowStarts(fields, msg, bs);
    }
    while stream.left > 0
      invariant stream.Valid() && stream.left <= old(stream.left) && stream.pos + stream.left == old(stream.pos + stream.left)
      invariant Shaped(fields, result) && (fields != [] ==> at < |fields|)
      invariant -1 <= fixed < |fields| && (fixed >= 0 ==> fields[fixed].rule.Fixed? && size <= fields[fixed].rule.count)
      invariant m == |bs| - stream.left && stream.Content() == bs[m..] && Parsed(fields, bs, parts, m, seen, fixed, size)
      invariant good ==> Underway(fields, msg, result, seen, fixed, size, i, j, stream.Content())
      decreases stream.left
    {
      ghost var here := stream.Content();
      ghost var unknown := good && Foreign(fields, msg, i, j, here);
      var eof, wire, tag, found;
      ok, eof, wire, tag := NextTag(stream, fields, msg, result, seen, fixed, size, i, j, good, unknown);
      ghost var k := |here| - stream.left;
      if !ok {
        if eof {
          Ended(here);
          break;
        }
        return;
      }
      found, at := Find(fields, at, tag);
      FoundIsKnown(fields, tag, found, at);
      if !found {
        ok, m := PassUnknown(stream, fields, wire, tag, here, k, bs, parts, m, seen, fixed, size, unknown, msg, result, i, j);
        if !ok {
          return;
        }
        parts := parts + [Part(tag, wire, 0)];
        continue;
      }
      ghost var part;
      ok, result, seen, fixed, size, i, j, part, m := TakeKnown(stream, wire, fields, at, result, seen, fixed, size, here, k, bs, parts, m, good, msg, i, j);
      if !ok {
        return;
      }
      parts := parts + [part];
    }
    if stream.left == 0 && m == |bs| {
      Ended(bs[m..]);
    }
    if good {
      NowEnds(fields, msg, result, seen, fixed, size, i, j);
    }
    ok := (fixed >= 0 ==> size == fields[fixed].rule.count) && forall r :: 0 <= r < RequiredCount(fields) ==> r in seen;
    if ok {
      ReadAll(fields, bs, parts, m, seen, fixed, size);
    }
  }

  lemma SameTag(fields: seq<Field>, i: nat, at: nat)
    requires WellFormed(fields) && i < |fields| && at < |fields| && fields[i].tag == fields[at].tag
    ensures i == at
  {
  }

  method Decode(stream: IStream, fields: seq<Field>, ghost msg: seq<Slot>) returns (ok: bool, result: seq<Slot>)
    requires stream.Valid() && WellFormed(fields)
    modifies stream
    ensures stream.Valid() && stream.left <= old(stream.left)
    ensures ok ==> stream.pos + stream.left == old(stream.pos + stream.left)
    ensures Shaped(fields, result)
    ensures ok ==> Sound(fields, old(stream.Content()))
    ensures Carries(old(stream.Content()), fields, msg) ==>
              && (ok <==> Terminated(fields, msg))
              && (ok ==> result == Clean(fields, msg) && stream.left == 0)
    decreases fields, 4
  {
    DefaultsShaped(fields);
    ok, result := DecodeNoinit(stream, fields, Defaults(fields), msg);
  }
}
