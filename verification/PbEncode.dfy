/** The encoder: one pass sizes a submessage, the next writes it. */
module PbEncode {
  import opened Coding
  import opened PbMessage

  datatype Status = Ok | StreamFull | ArrayMaxSizeExceeded | BytesSizeExceeded | SubmsgSizeChanged

  /** A stream that stores bytes, or without a callback only counts them. */
  class OStream {
    const sizing: bool
    const maxSize: nat
    var buffer: Bytes
    var bytesWritten: nat

    constructor (sizing: bool, maxSize: nat, buffer: Bytes)
      ensures this.sizing == sizing && this.maxSize == maxSize && this.buffer == buffer && bytesWritten == 0 && Valid()
    {
      this.sizing, this.maxSize, this.buffer, bytesWritten := sizing, maxSize, buffer, 0;
    }

    ghost predicate Valid()
      reads this
    {
      sizing || bytesWritten <= maxSize
    }

    ghost predicate Room(n: nat)
      reads this
    {
      sizing || bytesWritten + n <= maxSize
    }

    /** What the buffer holds after `bs`. */
    ghost function Put(b: Bytes, bs: Bytes): Bytes {
      if sizing then b else b + bs
    }

    method Write(bs: Bytes) returns (r: Status)
      requires Valid()
      modifies this
      ensures Valid() && (r == Ok <==> old(Room(|bs|))) && r != SubmsgSizeChanged
      ensures r == Ok ==> bytesWritten == old(bytesWritten) + |bs| && buffer == Put(old(buffer), bs)
    {
      if |bs| > 0 && !sizing {
        if bytesWritten + |bs| > maxSize {
          return StreamFull;
        }
        buffer := buffer + bs;
      }
      bytesWritten := bytesWritten + |bs|;
      r := Ok;
    }

    /** Counts bytes that are not at hand. */
    method Skip(n: nat) returns (r: Status)
      requires sizing
      modifies this
      ensures r == Ok && bytesWritten == old(bytesWritten) + n && buffer == old(buffer)
    {
      bytesWritten := bytesWritten + n;
      r := Ok;
    }

    method EncodeVarint(v: nat) returns (r: Status)
      requires Valid()
      modifies this
      ensures Valid() && (r == Ok <==> old(Room(|Varint(v)|))) && r != SubmsgSizeChanged
      ensures r == Ok ==> bytesWritten == old(bytesWritten) + |Varint(v)| && buffer == Put(old(buffer), Varint(v))
    {
      hide Varint;
      VarintStep(v);
      if v <= 0x7F {
        r := Write([v]);
        return;
      }
      var digits: Bytes, value: nat := [], v;
      while value > 0
        invariant unchanged(this)
        invariant value > 0 ==> Varint(v) == digits + Varint(value)
        invariant value == 0 ==> digits != [] && Last(digits) >= 128 && Varint(v) == digits[..|digits| - 1] + [Last(digits) - 128]
      {
        VarintStep(value);
        var byte: Byte := value % 128 + 128;
        assert value < 128 ==> (digits + [byte])[..|digits|] == digits && byte - 128 == value;
        assert value >= 128 ==> digits + ([byte] + Varint(value / 128)) == digits + [byte] + Varint(value / 128);
        digits := digits + [byte];
        value := value / 128;
      }
      digits := digits[|digits| - 1 := Last(digits) - 128];
      assert digits == Varint(v);
      r := Write(digits);
    }
  }

  function Last(bs: Bytes): Byte
    requires bs != []
  {
    bs[|bs| - 1]
  }

  method EncodeString(stream: OStream, bs: Bytes) returns (r: Status)
    requires stream.Valid()
    modifies stream
    ensures stream.Valid() && (r == Ok <==> old(stream.Room(|Prefixed(bs)|))) && r != SubmsgSizeChanged
    ensures r == Ok ==> stream.bytesWritten == old(stream.bytesWritten) + |Prefixed(bs)|
    ensures r == Ok ==> stream.buffer == stream.Put(old(stream.buffer), Prefixed(bs))
  {
    r := stream.EncodeVarint(|bs|);
    if r == Ok {
      r := stream.Write(bs);
      assert old(stream.buffer) + Varint(|bs|) + bs == old(stream.buffer) + Prefixed(bs);
    }
  }

  /** One value, by the encoder of its type. */
  method EncodeItem(stream: OStream, kind: Kind, v: Value) returns (r: Status)
    requires stream.Valid() && ItemShaped(kind, v)
    modifies stream
    ensures stream.Valid() && (r == Ok <==> ItemFits(kind, v) && old(stream.Room(|ItemBytes(kind, v)|))) && r != SubmsgSizeChanged
    ensures r == Ok ==> stream.bytesWritten == old(stream.bytesWritten) + |ItemBytes(kind, v)|
    ensures r == Ok ==> stream.buffer == stream.Put(old(stream.buffer), ItemBytes(kind, v))
    decreases kind
  {
    hide Varint, Fixed32, Fixed64;
    match kind
    case Boolean => r := stream.EncodeVarint(if v.b then 1 else 0);
    case Signed(_) => r := stream.EncodeVarint(Complement(v.n));
    case Unsigned(_) => r := stream.EncodeVarint(v.n);
    case ZigZag(_) => r := stream.EncodeVarint(Fold(v.n));
    case Word32 => r := stream.Write(Fixed32(v.n));
    case Word64 => r := stream.Write(Fixed64(v.n));
    case ByteArray(room) =>
      if |v.bytes| > room {
        r := BytesSizeExceeded;
      } else {
        r := EncodeString(stream, v.bytes);
      }
    case Text(_) => r := EncodeString(stream, v.bytes);
    case Inline(_) => r := EncodeString(stream, v.bytes);
    case Submessage(fields) =>
      assert Shaped(fields, v.slots);
      r := EncodeSubmessage(stream, fields, v.slots);
  }

  method EncodeTag(stream: OStream, tag: nat, wireType: nat) returns (r: Status)
    requires stream.Valid()
    modifies stream
    ensures stream.Valid() && (r == Ok <==> old(stream.Room(|Tag(tag, wireType)|))) && r != SubmsgSizeChanged
    ensures r == Ok ==> stream.bytesWritten == old(stream.bytesWritten) + |Tag(tag, wireType)|
    ensures r == Ok ==> stream.buffer == stream.Put(old(stream.buffer), Tag(tag, wireType))
  {
    r := stream.EncodeVarint(8 * tag + wireType);
  }

  /** The sizing pass and the writing pass agree: the size never changes in between. */
  method EncodeSubmessage(stream: OStream, fields: seq<Field>, slots: seq<Slot>) returns (r: Status)
    requires stream.Valid() && Shaped(fields, slots)
    modifies stream
    ensures stream.Valid() && r != SubmsgSizeChanged
    ensures r == Ok <==> Fits(fields, slots) && old(stream.Room(|Prefixed(MessageBytes(fields, slots, 0))|))
    ensures r == Ok ==> stream.bytesWritten == old(stream.bytesWritten) + |Prefixed(MessageBytes(fields, slots, 0))|
    ensures r == Ok ==> stream.buffer == stream.Put(old(stream.buffer), Prefixed(MessageBytes(fields, slots, 0)))
    decreases fields, 1
  {
    hide Fits, Shaped;
    ghost var bs := MessageBytes(fields, slots, 0);
    var substream := new OStream(true, 0, []);
    r := Encode(substream, fields, slots);
    if r != Ok {
      return;
    }
    var size := substream.bytesWritten;
    r := stream.EncodeVarint(size);
    if r != Ok {
      return;
    }
    if stream.sizing {
      r := stream.Skip(size);
      return;
    }
    if stream.bytesWritten + size > stream.maxSize {
      return StreamFull;
    }
    substream := new OStream(false, size, stream.buffer);
    r := Encode(substream, fields, slots);
    stream.bytesWritten := stream.bytesWritten + substream.bytesWritten;
    stream.buffer := substream.buffer;
    r := if substream.bytesWritten != size then SubmsgSizeChanged else r;
    assert old(stream.buffer) + Varint(size) + bs == old(stream.buffer) + Prefixed(bs);
  }

  /** The fields in order. */
  method Encode(stream: OStream, fields: seq<Field>, slots: seq<Slot>) returns (r: Status)
    requires stream.Valid() && Shaped(fields, slots)
    modifies stream
    ensures stream.Valid() && r != SubmsgSizeChanged
    ensures r == Ok <==> Fits(fields, slots) && old(stream.Room(|MessageBytes(fields, slots, 0)|))
    ensures r == Ok ==> stream.bytesWritten == old(stream.bytesWritten) + |MessageBytes(fields, slots, 0)|
    ensures r == Ok ==> stream.buffer == stream.Put(old(stream.buffer), MessageBytes(fields, slots, 0))
    decreases fields, 0
  {
    hide Fits, SlotFits;
    r := Ok;
    var i := 0;
    ghost var all := MessageBytes(fields, slots, 0);
    while i < |fields|
      invariant i <= |fields| && stream.Valid() && r == Ok
      invariant stream.bytesWritten + |MessageBytes(fields, slots, i)| == old(stream.bytesWritten) + |all|
      invariant stream.Put(stream.buffer, MessageBytes(fields, slots, i)) == stream.Put(old(stream.buffer), all)
      invariant forall k :: 0 <= k < i ==> SlotFits(fields[k], slots[k])
    {
      ghost var bs := FieldBytes(fields[i], Sent(fields[i], slots[i]), 0);
      PutPut(stream, stream.buffer, bs, MessageBytes(fields, slots, i + 1));
      r := EncodeField(stream, fields[i], slots[i]);
      if r != Ok {
        NotFit(fields, slots, i);
        return;
      }
      i := i + 1;
    }
    AllFit(fields, slots);
  }

  lemma PutPut(stream: OStream, b: Bytes, x: Bytes, y: Bytes)
    ensures stream.Put(stream.Put(b, x), y) == stream.Put(b, x + y)
  {
    assert b + x + y == b + (x + y);
  }

  lemma NotFit(fields: seq<Field>, slots: seq<Slot>, i: nat)
    requires Shaped(fields, slots) && i < |fields|
    ensures Fits(fields, slots) ==> SlotFits(fields[i], slots[i])
  {
  }

  lemma AllFit(fields: seq<Field>, slots: seq<Slot>)
    requires Shaped(fields, slots) && forall k :: 0 <= k < |fields| ==> SlotFits(fields[k], slots[k])
    ensures Fits(fields, slots)
  {
  }

  /** A field that is not an array is one tagged value, or nothing. */
  lemma SingleField(field: Field, slot: Slot)
    requires SlotShaped(field, slot) && !Array(field)
    ensures (if field.rule.Optional? then slot.Maybe? else slot.One?) && ItemShaped(field.kind, slot.value)
    ensures Sent(field, slot) in {[], [slot.value]}
    ensures Sent(field, slot) == [] ==> FieldBytes(field, Sent(field, slot), 0) == [] && SlotFits(field, slot)
    ensures Sent(field, slot) != [] ==>
              && FieldBytes(field, Sent(field, slot), 0) == Tag(field.tag, WireType(field.kind)) + ItemBytes(field.kind, slot.value)
              && (SlotFits(field, slot) <==> ItemFits(field.kind, slot.value))
  {
    hide Varint;
    var vs := Sent(field, slot);
    if vs != [] {
      UnitStep(field, vs, 0);
    }
  }

  lemma ArrayField(field: Field, slot: Slot)
    requires SlotShaped(field, slot) && Array(field)
    ensures (slot.Many? || slot.All?) && slot.items == Sent(field, slot)
    ensures forall v :: v in slot.items ==> ItemShaped(field.kind, v)
    ensures SlotFits(field, slot) <==>
            (slot.items != [] ==> |slot.items| <= Limit(field)) && forall v :: v in slot.items ==> ItemFits(field.kind, v)
  {
  }

  /** A field, if it is to be sent. */
  method EncodeField(stream: OStream, field: Field, slot: Slot) returns (r: Status)
    requires stream.Valid() && SlotShaped(field, slot)
    modifies stream
    ensures stream.Valid() && r != SubmsgSizeChanged
    ensures r == Ok <==> SlotFits(field, slot) && old(stream.Room(|FieldBytes(field, Sent(field, slot), 0)|))
    ensures r == Ok ==> stream.bytesWritten == old(stream.bytesWritten) + |FieldBytes(field, Sent(field, slot), 0)|
    ensures r == Ok ==> stream.buffer == stream.Put(old(stream.buffer), FieldBytes(field, Sent(field, slot), 0))
    decreases field, 1
  {
    hide Varint, ItemShaped, ItemBytes, ItemFits, FieldBytes, SlotFits, SlotShaped, IsZero;
    r := Ok;
    if Array(field) {
      ArrayField(field, slot);
      r := EncodeArray(stream, field, slot.items);
    } else {
      SingleField(field, slot);
      var present := if field.rule.Optional? then slot.has else if field.rule.Singular? then !IsZero(field.kind, slot.value) else true;
      if present {
        r := EncodeTag(stream, field.tag, WireType(field.kind));
        if r == Ok {
          r := EncodeItem(stream, field.kind, slot.value);
          PutPut(stream, old(stream.buffer), Tag(field.tag, WireType(field.kind)), ItemBytes(field.kind, slot.value));
        }
      }
    }
  }

  /** An array: packed behind one size, or one value at a time. */
  method EncodeArray(stream: OStream, field: Field, items: seq<Value>) returns (r: Status)
    requires stream.Valid() && Array(field) && forall v :: v in items ==> ItemShaped(field.kind, v)
    modifies stream
    ensures stream.Valid() && r != SubmsgSizeChanged
    ensures r == Ok <==> (items != [] ==> |items| <= Limit(field)) && (forall v :: v in items ==> ItemFits(field.kind, v)) &&
                         old(stream.Room(|FieldBytes(field, items, 0)|))
    ensures r == Ok ==> stream.bytesWritten == old(stream.bytesWritten) + |FieldBytes(field, items, 0)|
    ensures r == Ok ==> stream.buffer == stream.Put(old(stream.buffer), FieldBytes(field, items, 0))
    decreases field, 0
  {
    if items == [] {
      return Ok;
    }
    if |items| > Limit(field) {
      return ArrayMaxSizeExceeded;
    }
    if Packable(field.kind) {
      ghost var packed := ItemsBytes(field.kind, items);
      UnitStep(field, items, 0);
      assert FieldBytes(field, items, 1) == [] && FieldBytes(field, items, 0) == Tag(field.tag, 2) + Prefixed(packed);
      r := EncodeTag(stream, field.tag, 2);
      if r == Ok {
        label Tagged:
        r := EncodePacked(stream, field, items);
        PutPut(stream, old(stream.buffer), Tag(field.tag, 2), Prefixed(packed));
      }
    } else {
      r := EncodeUnpacked(stream, field, items);
    }
  }

  method EncodePacked(stream: OStream, field: Field, items: seq<Value>) returns (r: Status)
    requires stream.Valid() && Packable(field.kind) && forall v :: v in items ==> ItemShaped(field.kind, v)
    modifies stream
    ensures stream.Valid() && r != SubmsgSizeChanged
    ensures r == Ok <==> old(stream.Room(|Prefixed(ItemsBytes(field.kind, items))|))
    ensures r == Ok ==> stream.bytesWritten == old(stream.bytesWritten) + |Prefixed(ItemsBytes(field.kind, items))|
    ensures r == Ok ==> stream.buffer == stream.Put(old(stream.buffer), Prefixed(ItemsBytes(field.kind, items)))
    decreases field, 0, 1
  {
    ghost var packed := ItemsBytes(field.kind, items);
    var size;
    WordSizes(field.kind, items);
    if field.kind.Word32? {
      size := 4 * |items|;
    } else if field.kind.Word64? {
      size := 8 * |items|;
    } else {
      var sizestream := new OStream(true, 0, []);
      r := EncodeItems(sizestream, field, items);
      size := sizestream.bytesWritten;
    }
    r := stream.EncodeVarint(size);
    if r == Ok {
      PutPut(stream, old(stream.buffer), Varint(size), packed);
      if stream.sizing {
        r := stream.Skip(size);
      } else {
        r := EncodeItems(stream, field, items);
      }
    }
  }

  lemma {:induction false} WordSizes(kind: Kind, items: seq<Value>)
    requires forall v :: v in items ==> ItemShaped(kind, v)
    ensures kind.Word32? ==> |ItemsBytes(kind, items)| == 4 * |items|
    ensures kind.Word64? ==> |ItemsBytes(kind, items)| == 8 * |items|
  {
    if items != [] {
      WordSizes(kind, items[1..]);
    }
  }

  /** The values of an array of a packable type, one after the other. */
  method EncodeItems(stream: OStream, field: Field, items: seq<Value>) returns (r: Status)
    requires stream.Valid() && Packable(field.kind) && forall v :: v in items ==> ItemShaped(field.kind, v)
    modifies stream
    ensures stream.Valid() && r != SubmsgSizeChanged && (r == Ok <==> old(stream.Room(|ItemsBytes(field.kind, items)|)))
    ensures r == Ok ==> stream.bytesWritten == old(stream.bytesWritten) + |ItemsBytes(field.kind, items)|
    ensures r == Ok ==> stream.buffer == stream.Put(old(stream.buffer), ItemsBytes(field.kind, items))
    decreases field, 0, 0
  {
    r := Ok;
    var i := 0;
    ghost var all := ItemsBytes(field.kind, items);
    while i < |items|
      invariant i <= |items| && stream.Valid() && r == Ok
      invariant stream.bytesWritten + |ItemsBytes(field.kind, items[i..])| == old(stream.bytesWritten) + |all|
      invariant stream.Put(stream.buffer, ItemsBytes(field.kind, items[i..])) == stream.Put(old(stream.buffer), all)
    {
      assert items[i..][1..] == items[i + 1..];
      PutPut(stream, stream.buffer, ItemBytes(field.kind, items[i]), ItemsBytes(field.kind, items[i + 1..]));
      r := EncodeItem(stream, field.kind, items[i]);
      if r != Ok {
        return;
      }
      i := i + 1;
    }
  }

  /** The tag and the bytes of one entry. */
  method EncodeUnit(stream: OStream, field: Field, v: Value) returns (r: Status)
    requires stream.Valid() && ItemShaped(field.kind, v)
    modifies stream
    ensures stream.Valid() && r != SubmsgSizeChanged
    ensures var unit := Tag(field.tag, WireType(field.kind)) + ItemBytes(field.kind, v);
      && (r == Ok <==> ItemFits(field.kind, v) && old(stream.Room(|unit|)))
      && (r == Ok ==> stream.bytesWritten == old(stream.bytesWritten) + |unit| && stream.buffer == stream.Put(old(stream.buffer), unit))
    decreases field, 0, 0
  {
    hide Tag, ItemFits;
    PutPut(stream, stream.buffer, Tag(field.tag, WireType(field.kind)), ItemBytes(field.kind, v));
    r := EncodeTag(stream, field.tag, WireType(field.kind));
    if r == Ok {
      r := EncodeItem(stream, field.kind, v);
    }
  }

  lemma NoRoom(stream: OStream, written: nat, unit: nat, rest: nat, all: nat)
    requires stream.bytesWritten + unit + rest == written + all && !stream.Room(unit)
    ensures !(stream.sizing || written + all <= stream.maxSize)
  {
  }

  lemma PutNone(stream: OStream)
    ensures forall b :: stream.Put(b, []) == b
  {
  }

  lemma UnpackedStep(field: Field, items: seq<Value>, i: nat)
    requires Array(field) && !Packable(field.kind) && i < |items| && forall v :: v in items ==> ItemShaped(field.kind, v)
    ensures FieldBytes(field, items, i) == Tag(field.tag, WireType(field.kind)) + ItemBytes(field.kind, items[i]) + FieldBytes(field, items, i + 1)
  {
    UnitStep(field, items, i);
  }

  lemma UnpackedEnds(field: Field, items: seq<Value>)
    requires Array(field) && !Packable(field.kind) && forall v :: v in items ==> ItemShaped(field.kind, v)
    ensures FieldBytes(field, items, |items|) == []
  {
  }

  method EncodeUnpacked(stream: OStream, field: Field, items: seq<Value>) returns (r: Status)
    requires stream.Valid() && Array(field) && !Packable(field.kind) && forall v :: v in items ==> ItemShaped(field.kind, v)
    modifies stream
    ensures stream.Valid() && r != SubmsgSizeChanged
    ensures r == Ok <==> (forall v :: v in items ==> ItemFits(field.kind, v)) && old(stream.Room(|FieldBytes(field, items, 0)|))
    ensures r == Ok ==> stream.bytesWritten == old(stream.bytesWritten) + |FieldBytes(field, items, 0)|
    ensures r == Ok ==> stream.buffer == stream.Put(old(stream.buffer), FieldBytes(field, items, 0))
    decreases field, 0, 1
  {
    hide Tag, ItemFits, ItemBytes, ItemShaped, FieldBytes, OStream.Put;
    r := Ok;
    var i := 0;
    ghost var all, written := FieldBytes(field, items, 0), stream.bytesWritten;
    UnpackedEnds(field, items);
    PutNone(stream);
    while i < |items|
      invariant i <= |items| && stream.Valid() && r == Ok
      invariant stream.bytesWritten + |FieldBytes(field, items, i)| == written + |all|
      invariant stream.Put(stream.buffer, FieldBytes(field, items, i)) == stream.Put(old(stream.buffer), all)
      invariant forall k :: 0 <= k < i ==> ItemFits(field.kind, items[k])
    {
      ghost var unit, rest := Tag(field.tag, WireType(field.kind)) + ItemBytes(field.kind, items[i]), FieldBytes(field, items, i + 1);
      UnpackedStep(field, items, i);
      PutPut(stream, stream.buffer, unit, rest);
      if !stream.Room(|unit|) {
        NoRoom(stream, written, |unit|, |rest|, |all|);
      }
      r := EncodeUnit(stream, field, items[i]);
      if r != Ok {
        return;
      }
      i := i + 1;
    }
  }
}
