/** Protocol Buffers messages: descriptors, the contents of a message struct, and its bytes. */
module PbMessage {
  import opened Coding

  // ----- descriptors and contents -----

  /** Bytes of an integer field. */
  type Width = w: nat | w == 1 || w == 2 || w == 4 || w == 8 witness 1

  datatype Kind =
    | Boolean
    | Signed(width: Width)
    | Unsigned(width: Width)
    | ZigZag(width: Width)
    | Word32
    | Word64
    | ByteArray(room: nat)
    | Text(room: nat)
    | Submessage(fields: seq<Field>)
    | Inline(size: nat)

  /** Optional fields carry a presence flag, singular ones are present unless zero. */
  datatype Rule = Required | Optional | Singular | Repeated(max: nat) | Fixed(count: nat)

  datatype Field = Field(tag: nat, rule: Rule, kind: Kind, initial: Value)

  datatype Value = Flag(b: bool) | Number(n: int) | Data(bytes: Bytes) | Message(slots: seq<Slot>)

  /** What a struct holds for a field: `Many` grows up to the field's limit, `All` is a whole array. */
  datatype Slot = One(value: Value) | Maybe(has: bool, value: Value) | Many(items: seq<Value>) | All(items: seq<Value>)

  const TWO_64 := 0x1_0000_0000_0000_0000
  const MAX_REQUIRED_FIELDS := 64

  /** Half the values of an integer of so many bytes. */
  function Half(width: Width): (r: nat)
    ensures 128 <= r <= 0x8000_0000_0000_0000
  {
    if width == 1 then 0x80 else if width == 2 then 0x8000 else if width == 4 then 0x8000_0000 else 0x8000_0000_0000_0000
  }

  predicate Packable(kind: Kind) {
    !kind.ByteArray? && !kind.Text? && !kind.Submessage? && !kind.Inline?
  }

  predicate Array(field: Field) {
    field.rule.Repeated? || field.rule.Fixed?
  }

  /** Entries of a field's array. */
  function Limit(field: Field): nat
    requires Array(field)
  {
    if field.rule.Repeated? then field.rule.max else field.rule.count
  }

  predicate Packed(field: Field) {
    Array(field) && Packable(field.kind)
  }

  /** The struct member has the type that the descriptor gives it. */
  ghost predicate ItemShaped(kind: Kind, v: Value)
    decreases kind
  {
    match kind
    case Boolean => v.Flag?
    case Signed(w) => v.Number? && 0 <= v.n + Half(w) < 2 * Half(w)
    case Unsigned(w) => v.Number? && 0 <= v.n < 2 * Half(w)
    case ZigZag(w) => v.Number? && 0 <= v.n + Half(w) < 2 * Half(w)
    case Word32 => v.Number? && 0 <= v.n < 0x1_0000_0000
    case Word64 => v.Number? && 0 <= v.n < TWO_64
    case ByteArray(_) => v.Data?
    case Text(room) => v.Data? && |v.bytes| <= room && 0 !in v.bytes
    case Submessage(fields) => v.Message? && Shaped(fields, v.slots)
    case Inline(size) => v.Data? && |v.bytes| == size
  }

  ghost predicate SlotShaped(field: Field, slot: Slot)
    decreases field
  {
    match field.rule
    case Required => slot.One? && ItemShaped(field.kind, slot.value)
    case Singular => slot.One? && ItemShaped(field.kind, slot.value)
    case Optional => slot.Maybe? && ItemShaped(field.kind, slot.value)
    case Repeated(_) => slot.Many? && forall v :: v in slot.items ==> ItemShaped(field.kind, v)
    case Fixed(count) => slot.All? && |slot.items| == count && forall v :: v in slot.items ==> ItemShaped(field.kind, v)
  }

  ghost predicate Shaped(fields: seq<Field>, slots: seq<Slot>)
    decreases fields
  {
    |fields| == |slots| && forall i :: 0 <= i < |fields| ==> SlotShaped(fields[i], slots[i])
  }

  // ----- defaults -----

  function Zero(kind: Kind): Value
    decreases kind
  {
    match kind
    case Boolean => Flag(false)
    case ByteArray(_) => Data([])
    case Text(_) => Data([])
    case Inline(size) => Data(seq(size, _ => 0))
    case Submessage(fields) => Message(Defaults(fields))
    case _ => Number(0)
  }

  function DefaultValue(field: Field): Value
    decreases field, 0
  {
    if field.kind.Submessage? then Zero(field.kind) else field.initial
  }

  function DefaultSlot(field: Field): Slot
    decreases field, 1
  {
    match field.rule
    case Required => One(DefaultValue(field))
    case Singular => One(DefaultValue(field))
    case Optional => Maybe(false, DefaultValue(field))
    case Repeated(_) => Many([])
    case Fixed(count) => All(seq(count, _ => Zero(field.kind)))
  }

  function Defaults(fields: seq<Field>): (slots: seq<Slot>)
    ensures |slots| == |fields|
    decreases fields
  {
    seq(|fields|, i requires 0 <= i < |fields| => DefaultSlot(fields[i]))
  }

  /** Field numbers are in range and distinct, defaults have their field's type, and a field
      that is left out when zero has no other default. */
  ghost predicate WellFormed(fields: seq<Field>)
    decreases fields
  {
    && (forall i, j :: 0 <= i < j < |fields| ==> fields[i].tag != fields[j].tag)
    && forall i :: 0 <= i < |fields| ==> FieldWellFormed(fields[i])
  }

  ghost predicate FieldWellFormed(field: Field)
    decreases field
  {
    && 0 < field.tag < 0x2000_0000
    && (field.kind.Submessage? ==> WellFormed(field.kind.fields))
    && (!field.kind.Submessage? ==> ItemShaped(field.kind, field.initial))
    && (field.rule.Singular? && !field.kind.Submessage? ==> field.initial == Zero(field.kind))
  }

  // ----- what is sent -----

  /** The test for a zero value, which looks into submessages. */
  predicate IsZero(kind: Kind, v: Value)
    requires ItemShaped(kind, v)
    decreases kind
  {
    match kind
    case Boolean => !v.b
    case ByteArray(_) => v.bytes == []
    case Text(_) => v.bytes == []
    case Inline(size) => size == 0
    case Submessage(fields) =>
      assert Shaped(fields, v.slots);
      forall i :: 0 <= i < |fields| ==> IsUnset(fields[i], v.slots[i])
    case _ => v.n == 0
  }

  predicate IsUnset(field: Field, slot: Slot)
    requires SlotShaped(field, slot)
    decreases field
  {
    match field.rule
    case Required => false
    case Repeated(_) => slot.items == []
    case Fixed(_) => false
    case Optional => !slot.has
    case Singular => IsZero(field.kind, slot.value)
  }

  /** The values of a field that go onto the wire. */
  function Sent(field: Field, slot: Slot): (vs: seq<Value>)
    requires SlotShaped(field, slot)
    ensures forall v :: v in vs ==> ItemShaped(field.kind, v)
    ensures !Array(field) ==> |vs| <= 1
  {
    match field.rule
    case Required => [slot.value]
    case Singular => if IsZero(field.kind, slot.value) then [] else [slot.value]
    case Optional => if slot.has then [slot.value] else []
    case Repeated(_) => slot.items
    case Fixed(_) => slot.items
  }

  // ----- bytes -----

  function WireType(kind: Kind): nat {
    match kind
    case Word32 => 5
    case Word64 => 1
    case ByteArray(_) => 2
    case Text(_) => 2
    case Submessage(_) => 2
    case Inline(_) => 2
    case _ => 0
  }

  function Tag(tag: nat, wireType: nat): Bytes {
    Varint(8 * tag + wireType)
  }

  /** Two's complement in 64 bits. */
  function Complement(n: int): int {
    if n < 0 then n + TWO_64 else n
  }

  function Fold(n: int): int {
    if n < 0 then -2 * n - 1 else 2 * n
  }

  function Prefixed(bs: Bytes): Bytes {
    Varint(|bs|) + bs
  }

  ghost function ItemBytes(kind: Kind, v: Value): Bytes
    requires ItemShaped(kind, v)
    decreases kind, 0
  {
    match kind
    case Boolean => Varint(if v.b then 1 else 0)
    case Signed(_) => Varint(Complement(v.n))
    case Unsigned(_) => Varint(v.n)
    case ZigZag(_) => Varint(Fold(v.n))
    case Word32 => Fixed32(v.n)
    case Word64 => Fixed64(v.n)
    case Submessage(fields) => Prefixed(MessageBytes(fields, v.slots, 0))
    case _ => Prefixed(v.bytes)
  }

  ghost function ItemsBytes(kind: Kind, vs: seq<Value>): Bytes
    requires forall v :: v in vs ==> ItemShaped(kind, v)
    decreases kind, 1, |vs|
  {
    if vs == [] then [] else ItemBytes(kind, vs[0]) + ItemsBytes(kind, vs[1..])
  }

  /** A packed array is one unit, otherwise every value is one of its own. */
  function Units(field: Field, vs: seq<Value>): nat {
    if Packed(field) then if vs == [] then 0 else 1 else |vs|
  }

  function UnitWire(field: Field): nat {
    if Packed(field) then 2 else WireType(field.kind)
  }

  ghost function UnitBody(field: Field, vs: seq<Value>, j: nat): Bytes
    requires j < Units(field, vs) && forall v :: v in vs ==> ItemShaped(field.kind, v)
    decreases field, 0
  {
    if Packed(field) then Prefixed(ItemsBytes(field.kind, vs)) else ItemBytes(field.kind, vs[j])
  }

  ghost function Unit(field: Field, vs: seq<Value>, j: nat): Bytes
    requires j < Units(field, vs) && forall v :: v in vs ==> ItemShaped(field.kind, v)
    decreases field, 1
  {
    Tag(field.tag, UnitWire(field)) + UnitBody(field, vs, j)
  }

  ghost function FieldBytes(field: Field, vs: seq<Value>, j: nat): Bytes
    requires j <= Units(field, vs) && forall v :: v in vs ==> ItemShaped(field.kind, v)
    decreases field, 2, Units(field, vs) - j
  {
    if j == Units(field, vs) then [] else Unit(field, vs, j) + FieldBytes(field, vs, j + 1)
  }

  lemma UnitStep(field: Field, vs: seq<Value>, j: nat)
    requires j < Units(field, vs) && forall v :: v in vs ==> ItemShaped(field.kind, v)
    ensures UnitBody(field, vs, j) == if Packed(field) then Prefixed(ItemsBytes(field.kind, vs)) else ItemBytes(field.kind, vs[j])
    ensures FieldBytes(field, vs, j) == Tag(field.tag, UnitWire(field)) + UnitBody(field, vs, j) + FieldBytes(field, vs, j + 1)
  {
    assert Unit(field, vs, j) == Tag(field.tag, UnitWire(field)) + UnitBody(field, vs, j);
  }

  /** The bytes of the fields from `i` on. */
  ghost function MessageBytes(fields: seq<Field>, slots: seq<Slot>, i: nat): Bytes
    requires Shaped(fields, slots) && i <= |fields|
    decreases fields, |fields| - i
  {
    if i == |fields| then [] else FieldBytes(fields[i], Sent(fields[i], slots[i]), 0) + MessageBytes(fields, slots, i + 1)
  }

  // ----- what encoding and decoding ask of the contents -----

  /** What is sent fits the struct's arrays. */
  ghost predicate ItemFits(kind: Kind, v: Value)
    requires ItemShaped(kind, v)
    decreases kind
  {
    && (kind.ByteArray? ==> |v.bytes| <= kind.room)
    && (kind.Submessage? ==> Fits(kind.fields, v.slots))
  }

  ghost predicate SlotFits(field: Field, slot: Slot)
    requires SlotShaped(field, slot)
    decreases field
  {
    && (field.rule.Repeated? ==> |slot.items| <= field.rule.max)
    && forall v :: v in Sent(field, slot) ==> ItemFits(field.kind, v)
  }

  ghost predicate Fits(fields: seq<Field>, slots: seq<Slot>)
    requires Shaped(fields, slots)
    decreases fields
  {
    forall i :: 0 <= i < |fields| ==> SlotFits(fields[i], slots[i])
  }

  /** Every text that is sent has a terminator in its array. */
  ghost predicate ItemTerminated(kind: Kind, v: Value)
    requires ItemShaped(kind, v)
    decreases kind
  {
    && (kind.Text? ==> |v.bytes| < kind.room)
    && (kind.Submessage? ==> Terminated(kind.fields, v.slots))
  }

  ghost predicate SlotTerminated(field: Field, slot: Slot)
    requires SlotShaped(field, slot)
    decreases field
  {
    forall v :: v in Sent(field, slot) ==> ItemTerminated(field.kind, v)
  }

  ghost predicate Terminated(fields: seq<Field>, slots: seq<Slot>)
    requires Shaped(fields, slots)
    decreases fields
  {
    forall i :: 0 <= i < |fields| ==> SlotTerminated(fields[i], slots[i])
  }

  // ----- contents up to what is not set -----

  function CleanItem(kind: Kind, v: Value): Value
    requires ItemShaped(kind, v)
    decreases kind, 0
  {
    if kind.Submessage? then Message(Clean(kind.fields, v.slots)) else v
  }

  function CleanItems(kind: Kind, vs: seq<Value>): (r: seq<Value>)
    requires forall v :: v in vs ==> ItemShaped(kind, v)
    ensures |r| == |vs|
    decreases kind, 1
  {
    seq(|vs|, i requires 0 <= i < |vs| => CleanItem(kind, vs[i]))
  }

  /** The slot with the default in place of a value that is not set. */
  function CleanSlot(field: Field, slot: Slot): Slot
    requires SlotShaped(field, slot)
    decreases field
  {
    match slot
    case One(v) => One(CleanItem(field.kind, v))
    case Maybe(has, v) => Maybe(has, if has then CleanItem(field.kind, v) else DefaultValue(field))
    case Many(items) => Many(CleanItems(field.kind, items))
    case All(items) => All(CleanItems(field.kind, items))
  }

  function Clean(fields: seq<Field>, slots: seq<Slot>): (r: seq<Slot>)
    requires Shaped(fields, slots)
    ensures |r| == |fields|
    decreases fields
  {
    seq(|fields|, i requires 0 <= i < |fields| => CleanSlot(fields[i], slots[i]))
  }
}
