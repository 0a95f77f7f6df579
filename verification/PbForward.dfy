/** Descriptors that grow: a reader with an older descriptor takes what it knows of a newer
    writer's message, and passes over the rest. */
module PbForward {
  import opened Coding
  import opened PbMessage
  import opened PbStream
  import opened PbParse
  import opened PbDecode
  import opened PbEncode
  import opened PbDecodeMessage
  import opened PbRoundTrip

  /** The fields with these numbers, in the descriptor's order. */
  function Older(fields: seq<Field>, known: set<nat>): seq<Field> {
    if fields == [] then []
    else
      var n := |fields| - 1;
      Older(fields[..n], known) + if fields[n].tag in known then [fields[n]] else []
  }

  /** ... and what a struct holds for them. */
  function OlderSlots(fields: seq<Field>, slots: seq<Slot>, known: set<nat>): seq<Slot>
    requires |fields| == |slots|
  {
    if fields == [] then []
    else
      var n := |fields| - 1;
      OlderSlots(fields[..n], slots[..n], known) + if fields[n].tag in known then [slots[n]] else []
  }

  /** How many of the first `i` fields the older descriptor has. */
  function Place(fields: seq<Field>, known: set<nat>, i: nat): nat
    requires i <= |fields|
  {
    if i == 0 then 0 else Place(fields, known, i - 1) + if fields[i - 1].tag in known then 1 else 0
  }

  lemma {:induction false} OlderAt(fields: seq<Field>, slots: seq<Slot>, known: set<nat>, i: nat)
    requires |fields| == |slots| && i <= |fields|
    ensures |Older(fields, known)| == |OlderSlots(fields, slots, known)| == Place(fields, known, |fields|)
    ensures Place(fields, known, i) <= |Older(fields, known)|
    ensures i < |fields| && fields[i].tag in known ==>
      var p := Place(fields, known, i);
      p < |Older(fields, known)| && Older(fields, known)[p] == fields[i] && OlderSlots(fields, slots, known)[p] == slots[i]
  {
    if fields != [] {
      var n := |fields| - 1;
      SamePlaces(fields, known, n);
      if i <= n {
        SamePlaces(fields, known, i);
        OlderAt(fields[..n], slots[..n], known, i);
      } else {
        OlderAt(fields[..n], slots[..n], known, n);
      }
    }
  }

  lemma {:induction false} SamePlaces(fields: seq<Field>, known: set<nat>, i: nat)
    requires fields != [] && i < |fields|
    ensures Place(fields[..|fields| - 1], known, i) == Place(fields, known, i)
  {
    if i > 0 {
      SamePlaces(fields, known, i - 1);
    }
  }

  /** Every older field comes from somewhere. */
  lemma {:induction false} FromNewer(fields: seq<Field>, slots: seq<Slot>, known: set<nat>, p: nat) returns (i: nat)
    requires |fields| == |slots| && p < |Older(fields, known)|
    ensures i < |fields| && fields[i].tag in known && Place(fields, known, i) == p
    ensures |OlderSlots(fields, slots, known)| == |Older(fields, known)|
    ensures Older(fields, known)[p] == fields[i] && OlderSlots(fields, slots, known)[p] == slots[i]
  {
    var n := |fields| - 1;
    OlderAt(fields, slots, known, n);
    SamePlaces(fields, known, n);
    OlderAt(fields[..n], slots[..n], known, n);
    if p < |Older(fields[..n], known)| {
      i := FromNewer(fields[..n], slots[..n], known, p);
      SamePlaces(fields, known, i);
      OlderAt(fields, slots, known, i);
    } else {
      i := n;
    }
  }

  lemma OlderIsWellFormed(fields: seq<Field>, slots: seq<Slot>, known: set<nat>)
    requires WellFormed(fields) && Shaped(fields, slots)
    ensures WellFormed(Older(fields, known)) && Shaped(Older(fields, known), OlderSlots(fields, slots, known))
    ensures Fits(fields, slots) ==> Fits(Older(fields, known), OlderSlots(fields, slots, known))
    ensures forall tag: nat :: Known(Older(fields, known), tag) ==> tag in known
  {
    hide Older, OlderSlots, Place, SlotShaped, SlotFits, FieldWellFormed;
    var older, kept := Older(fields, known), OlderSlots(fields, slots, known);
    OlderAt(fields, slots, known, 0);
    forall p | 0 <= p < |older|
      ensures SlotShaped(older[p], kept[p]) && FieldWellFormed(older[p]) && older[p].tag in known
      ensures Fits(fields, slots) ==> SlotFits(older[p], kept[p])
    {
      var i := FromNewer(fields, slots, known, p);
    }
    forall p, q | 0 <= p < q < |older| ensures older[p].tag != older[q].tag {
      var i := FromNewer(fields, slots, known, p);
      var j := FromNewer(fields, slots, known, q);
      assert i != j;
    }
  }

  // ----- what the encoder writes for a field the reader lacks -----

  lemma PrefixedSpan(bs: Bytes, rest: Bytes)
    requires |bs| < TWO_32
    ensures Delimited(Prefixed(bs) + rest, |Prefixed(bs)|)
  {
    hide Varint, Accepts, Taken;
    var all := Prefixed(bs) + rest;
    assert Varint(|bs|) <= all;
    VarintAccepted(all, |bs|);
    assert PrefixAt(all, |Varint(|bs|)|, |Prefixed(bs)|);
  }

  lemma VarintSpan(v: nat, rest: Bytes)
    ensures EndsVarint(Varint(v) + rest, |Varint(v)|)
  {
    VarintTerminates(v, Varint(v) + rest);
  }

  lemma ItemSpan(kind: Kind, v: Value, rest: Bytes)
    requires ItemShaped(kind, v) && |ItemBytes(kind, v)| < TWO_32
    ensures UnknownSpan(WireType(kind), ItemBytes(kind, v) + rest, |ItemBytes(kind, v)|)
  {
    hide Varint, EndsVarint, Delimited, Fixed32, Fixed64, Complement;
    match kind
    case Boolean => VarintSpan(if v.b then 1 else 0, rest);
    case Signed(_) => VarintSpan(Complement(v.n), rest) by { ComplementFits(v.n, kind); }
    case Unsigned(_) => VarintSpan(v.n, rest);
    case ZigZag(_) => VarintSpan(Fold(v.n), rest);
    case Word32 => WordLength(v.n);
    case Word64 => DoubleLength(v.n);
    case Submessage(fields) => PrefixedSpan(MessageBytes(fields, v.slots, 0), rest);
    case _ => PrefixedSpan(v.bytes, rest);
  }

  lemma ComplementFits(n: int, kind: Kind)
    requires kind.Signed? && 0 <= n + Half(kind.width) < 2 * Half(kind.width)
    ensures Complement(n) >= 0
  {
  }

  lemma WordLength(n: nat)
    requires n < TWO_32
    ensures |Fixed32(n)| == 4
  {
  }

  lemma DoubleLength(n: nat)
    requires n < TWO_64
    ensures |Fixed64(n)| == 8
  {
  }

  lemma UnitSpan(field: Field, vs: seq<Value>, j: nat, rest: Bytes)
    requires j < Units(field, vs) && (forall v :: v in vs ==> ItemShaped(field.kind, v)) && |UnitBody(field, vs, j)| < TWO_32
    ensures UnknownSpan(UnitWire(field), UnitBody(field, vs, j) + rest, |UnitBody(field, vs, j)|)
  {
    hide ItemShaped, ItemBytes, ItemsBytes, UnknownSpan, Delimited;
    if Packed(field) {
      PrefixedSpan(ItemsBytes(field.kind, vs), rest);
      assert UnknownSpan(2, Prefixed(ItemsBytes(field.kind, vs)) + rest, |Prefixed(ItemsBytes(field.kind, vs))|) by {
        StringIsSpan(Prefixed(ItemsBytes(field.kind, vs)) + rest, |Prefixed(ItemsBytes(field.kind, vs))|);
      }
    } else {
      ItemSpan(field.kind, vs[j], rest);
    }
  }

  lemma StringIsSpan(bs: Bytes, n: nat)
    requires Delimited(bs, n)
    ensures UnknownSpan(2, bs, n)
  {
  }

  /** One unit of such a field is a field the reader passes over. */
  lemma UnitIsUnknown(older: seq<Field>, field: Field, vs: seq<Value>, j: nat, rest: Bytes)
    requires j < Units(field, vs) && (forall v :: v in vs ==> ItemShaped(field.kind, v)) && 0 < field.tag < 0x2000_0000 && !Known(older, field.tag)
    requires |Unit(field, vs, j)| < TWO_32
    ensures
      var k, n := |Tag(field.tag, UnitWire(field))|, |UnitBody(field, vs, j)|;
      && UnknownAt(older, Unit(field, vs, j) + rest, k, n) && k > 0 && k + n == |Unit(field, vs, j)|
      && (Unit(field, vs, j) + rest)[k + n..] == rest
  {
    hide UnitBody, Varint, Accepts, Taken, UnknownSpan, Known;
    var tag, body := Tag(field.tag, UnitWire(field)), UnitBody(field, vs, j);
    var all := Unit(field, vs, j) + rest;
    assert all == tag + (body + rest) && all[|tag|..] == body + rest;
    WireBelow8(field);
    VarintAccepted(all, 8 * field.tag + UnitWire(field));
    UnitSpan(field, vs, j, rest);
  }

  lemma WireBelow8(field: Field)
    ensures UnitWire(field) < 8
  {
  }

  // ----- a newer message, read -----

  lemma {:induction false} PassesOver(older: seq<Field>, kept: seq<Slot>, p: nat, field: Field, vs: seq<Value>, j: nat, rest: Bytes)
    requires Shaped(older, kept) && p <= |older| && j <= Units(field, vs) && forall v :: v in vs ==> ItemShaped(field.kind, v)
    requires 0 < field.tag < 0x2000_0000 && !Known(older, field.tag) && Woven(older, kept, p, 0, rest)
    requires |FieldBytes(field, vs, j) + rest| < TWO_32
    ensures Woven(older, kept, p, 0, FieldBytes(field, vs, j) + rest)
    decreases Units(field, vs) - j
  {
    hide Unit, UnknownAt, Known;
    if j == Units(field, vs) {
      assert FieldBytes(field, vs, j) + rest == rest;
    } else {
      var unit, more := Unit(field, vs, j), FieldBytes(field, vs, j + 1);
      assert FieldBytes(field, vs, j) + rest == unit + (more + rest);
      PassesOver(older, kept, p, field, vs, j + 1, rest);
      UnitIsUnknown(older, field, vs, j, more + rest);
      assert UnknownFirst(older, kept, p, 0, unit + (more + rest), |Tag(field.tag, UnitWire(field))|, |UnitBody(field, vs, j)|);
    }
  }

  lemma {:induction false} Takes(older: seq<Field>, kept: seq<Slot>, p: nat, j: nat, rest: Bytes)
    requires Shaped(older, kept) && p < |older| && j <= Units(older[p], Sent(older[p], kept[p])) && Woven(older, kept, p + 1, 0, rest)
    ensures Woven(older, kept, p, j, FieldBytes(older[p], Sent(older[p], kept[p]), j) + rest)
    decreases Units(older[p], Sent(older[p], kept[p])) - j
  {
    hide Unit, Woven;
    var vs := Sent(older[p], kept[p]);
    if j == Units(older[p], vs) {
      assert FieldBytes(older[p], vs, j) + rest == rest;
      WovenOn(older, kept, p, rest);
    } else {
      var unit, more := Unit(older[p], vs, j), FieldBytes(older[p], vs, j + 1);
      var all := FieldBytes(older[p], vs, j) + rest;
      assert all == unit + (more + rest) && all[|unit|..] == more + rest;
      Takes(older, kept, p, j + 1, rest);
      UnitNotEmpty(older[p], vs, j);
      WovenUnit(older, kept, p, j, all);
    }
  }

  lemma UnitNotEmpty(field: Field, vs: seq<Value>, j: nat)
    requires j < Units(field, vs) && forall v :: v in vs ==> ItemShaped(field.kind, v)
    ensures Unit(field, vs, j) != []
  {
    hide UnitBody;
  }

  lemma {:induction false} NewerIsWoven(fields: seq<Field>, slots: seq<Slot>, known: set<nat>, i: nat)
    requires WellFormed(fields) && Shaped(fields, slots) && i <= |fields| && |MessageBytes(fields, slots, i)| < TWO_32
    ensures
      var older, kept := Older(fields, known), OlderSlots(fields, slots, known);
      && Shaped(older, kept) && Place(fields, known, i) <= |older|
      && Woven(older, kept, Place(fields, known, i), 0, MessageBytes(fields, slots, i))
    decreases |fields| - i
  {
    hide Older, OlderSlots, Woven, WellFormed, FieldBytes;
    var older, kept := Older(fields, known), OlderSlots(fields, slots, known);
    OlderIsWellFormed(fields, slots, known);
    OlderAt(fields, slots, known, i);
    if i == |fields| {
      WovenOut(older, kept);
    } else {
      var vs, rest, p := Sent(fields[i], slots[i]), MessageBytes(fields, slots, i + 1), Place(fields, known, i);
      FieldFirst(fields, slots, i);
      NewerIsWoven(fields, slots, known, i + 1);
      if fields[i].tag in known {
        Takes(older, kept, p, 0, rest);
      } else {
        TagInRange(fields, i);
        PassesOver(older, kept, p, fields[i], vs, 0, rest);
      }
    }
  }

  lemma TagInRange(fields: seq<Field>, i: nat)
    requires WellFormed(fields) && i < |fields|
    ensures 0 < fields[i].tag < 0x2000_0000
  {
  }

  /** Written under a descriptor, read under any part of it: the reader gets what it knows of the
      message. */
  method ReadOlder(fields: seq<Field>, slots: seq<Slot>, known: set<nat>, bufsize: nat) returns (r: Status, ok: bool, result: seq<Slot>)
    requires WellFormed(fields) && Shaped(fields, slots) && bufsize < TWO_32
    ensures r == Ok <==> Fits(fields, slots) && |MessageBytes(fields, slots, 0)| <= bufsize
    ensures
      var older, kept := Older(fields, known), OlderSlots(fields, slots, known);
      && Shaped(older, kept) && (r == Ok ==> (ok <==> Terminated(older, kept))) && (r == Ok && ok ==> result == Clean(older, kept))
  {
    hide WellFormed, SlotShaped, Fits, MessageBytes, Terminated, Clean, Older, OlderSlots, Woven, Carries, Sound;
    var older := Older(fields, known);
    ghost var kept := OlderSlots(fields, slots, known);
    OlderIsWellFormed(fields, slots, known);
    var buffer;
    r, buffer := EncodeToBuffer(fields, slots, bufsize);
    ok, result := false, [];
    if r == Ok {
      NewerCarries(fields, slots, known);
      var stream := new IStream(buffer, 0, |buffer|);
      assert stream.Content() == buffer;
      ok, result := Decode(stream, older, kept);
    }
  }

  lemma NewerCarries(fields: seq<Field>, slots: seq<Slot>, known: set<nat>)
    requires WellFormed(fields) && Shaped(fields, slots) && Fits(fields, slots) && |MessageBytes(fields, slots, 0)| < TWO_32
    ensures Carries(MessageBytes(fields, slots, 0), Older(fields, known), OlderSlots(fields, slots, known))
  {
    hide Older, OlderSlots, Woven, WellFormed, Fits, MessageBytes;
    OlderIsWellFormed(fields, slots, known);
    NewerIsWoven(fields, slots, known, 0);
  }
}
