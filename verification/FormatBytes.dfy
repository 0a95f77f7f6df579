/** What the formats look like byte by byte, told without the functions that write them, so
    that no writer and reader could agree on another format. */
module FormatBytes {
  import opened Coding
  import LogFormat
  import Block
  import BlockBuilder
  import FilterBlock
  import Bloom
  import Format
  import opened PbMessage
  import opened PbDecode

  // ----- numbers -----

  /** The number that bytes write, the lowest first. */
  function Little(bs: Bytes): nat {
    if bs == [] then 0 else bs[0] as nat + 0x100 * Little(bs[1..])
  }

  lemma LittleStep(b: Byte, bs: Bytes)
    ensures Little([b] + bs) == b as nat + 0x100 * Little(bs)
  {
    assert ([b] + bs)[1..] == bs;
  }

  lemma LittleFour(a: Byte, b: Byte, c: Byte, d: Byte, rest: Bytes)
    ensures
      Little([a, b, c, d] + rest) == a as nat + 0x100 * b as nat + 0x1_0000 * c as nat + 0x100_0000 * d as nat + 0x1_0000_0000 * Little(rest)
  {
    hide Little;
    LittleStep(a, [b, c, d] + rest);
    LittleStep(b, [c, d] + rest);
    LittleStep(c, [d] + rest);
    LittleStep(d, rest);
    assert [a] + ([b, c, d] + rest) == [a, b, c, d] + rest && [b] + ([c, d] + rest) == [b, c, d] + rest && [c] + ([d] + rest) == [c, d] + rest;
  }

  lemma LittleEndian32(w: Word)
    ensures Little(Fixed32(w)) == w
  {
    var f := Fixed32(w);
    LittleFour(f[0], f[1], f[2], f[3], []);
    assert [f[0], f[1], f[2], f[3]] + [] == f == f + [];
    Fixed32RoundTrip(w, []);
  }

  lemma LittleJoined(a: Bytes, b: Bytes)
    requires |a| == 4
    ensures Little(a + b) == Little(a) + 0x1_0000_0000 * Little(b)
  {
    LittleFour(a[0], a[1], a[2], a[3], b);
    LittleFour(a[0], a[1], a[2], a[3], []);
    assert a == [a[0], a[1], a[2], a[3]] == [a[0], a[1], a[2], a[3]] + [];
  }

  lemma LittleEndian64(v: nat)
    requires v < 0x1_0000_0000_0000_0000
    ensures Little(Fixed64(v)) == v
  {
    hide Fixed32, Little;
    LittleEndian32(v % 0x1_0000_0000);
    LittleEndian32(v / 0x1_0000_0000);
    LittleJoined(Fixed32(v % 0x1_0000_0000), Fixed32(v / 0x1_0000_0000));
  }

  /** Low digits first, and no digit more than the number needs. */
  lemma SmallVarints(v: nat)
    ensures v < 0x80 ==> Varint(v) == [v]
    ensures 0x80 <= v < 0x4000 ==> Varint(v) == [0x80 + v % 0x80, v / 0x80]
    ensures 0x4000 <= v < 0x20_0000 ==> Varint(v) == [0x80 + v % 0x80, 0x80 + v / 0x80 % 0x80, v / 0x4000]
  {
    hide Varint;
    VarintStep(v);
    VarintStep(v / 128);
    VarintStep(v / 128 / 128);
    assert v / 128 / 128 == v / 0x4000;
  }

  lemma LittleTwo(n: nat)
    requires n < 0x1_0000
    ensures Little([n % 256, n / 256]) == n
  {
    LittleStep(n % 256, [n / 256]);
    LittleStep(n / 256, []);
    assert [n % 256] + [n / 256] == [n % 256, n / 256] && [n / 256] + [] == [n / 256];
  }

  // ----- the log -----

  /** Masked checksum of type and payload, length, type, payload. */
  lemma LogHeader(crc: LogFormat.Crc, t: Byte, payload: Bytes)
    requires |payload| <= 32761
    ensures
      var p := LogFormat.Physical(crc, t, payload);
      && |p| == 7 + |payload| && p[7..] == payload
      && Little(p[..4]) == Mask(crc([t] + payload)) && Little(p[4..6]) == |payload| && p[6] == t
  {
    hide Fixed32, Mask, Little;
    LittleEndian32(Mask(crc([t] + payload)));
    var p := LogFormat.Physical(crc, t, payload);
    assert p[..4] == Fixed32(Mask(crc([t] + payload))) && p[4..6] == [|payload| % 256, |payload| / 256];
    LittleTwo(|payload|);
  }

  /** A record in an empty log: whole (type 1), in two parts (2, 4), or in three (2, 3, 4); each
      part but the last fills its block of 32768 bytes. */
  lemma LogParts(crc: LogFormat.Crc, data: Bytes)
    ensures
      var log := LogFormat.Layout(crc, [data], 0);
      && (|data| <= 32761 ==> log == LogFormat.Physical(crc, 1, data))
      && (32761 < |data| <= 65522 ==>
            log == LogFormat.Physical(crc, 2, data[..32761]) + LogFormat.Physical(crc, 4, data[32761..]))
      && (65522 < |data| <= 98283 ==>
            log == LogFormat.Physical(crc, 2, data[..32761])
                   + (LogFormat.Physical(crc, 3, data[32761..65522]) + LogFormat.Physical(crc, 4, data[65522..])))
  {
    hide LogFormat.Physical;
    assert LogFormat.Layout(crc, [], LogFormat.EndOff(data, 0)) == [];
    assert LogFormat.Layout(crc, [data], 0) == LogFormat.Fragments(crc, data, 0, true);
    WholeAt(crc, data, true);
    if |data| > 32761 {
      WholeAt(crc, data[32761..], false);
      if |data| > 65522 {
        assert data[32761..][..32761] == data[32761..65522] && data[32761..][32761..] == data[65522..];
        WholeAt(crc, data[65522..], false);
      }
    }
  }

  /** The fragments at the start of a block. */
  lemma WholeAt(crc: LogFormat.Crc, data: Bytes, begin: bool)
    ensures |data| <= 32761 ==>
      LogFormat.Fragments(crc, data, 0, begin) == LogFormat.Physical(crc, if begin then 1 else 4, data)
    ensures |data| > 32761 ==>
      LogFormat.Fragments(crc, data, 0, begin)
      == LogFormat.Physical(crc, if begin then 2 else 3, data[..32761]) + LogFormat.Fragments(crc, data[32761..], 0, false)
  {
    hide LogFormat.Physical;
    assert data[..|data|] == data;
  }

  /** With less than a header's room left in its block a record starts in the next one; with
      just that room its first part is empty. */
  lemma LogBlockEnd(crc: LogFormat.Crc, data: Bytes, off: LogFormat.Offset)
    requires data != []
    ensures off > 32761 ==>
      LogFormat.Emit(crc, data, off, true) == seq(32768 - off, _ => 0) + LogFormat.Emit(crc, data, 0, true)
    ensures off == 32761 ==> LogFormat.Physical(crc, 2, []) <= LogFormat.Emit(crc, data, off, true)
  {
    hide LogFormat.Physical;
    assert LogFormat.Trailer(0) == [] && data[..0] == [];
    assert [] + LogFormat.Fragments(crc, data, 0, true) == LogFormat.Fragments(crc, data, 0, true);
  }

  // ----- tables -----

  /** Two rows behind one restart point: each the bytes of its key that it shares with the row
      before, the bytes it adds and the bytes of its value, then those; then the restart point
      and their number. */
  lemma TwoRows(r: Block.Row, q: Block.Row, shared: nat, b: Bytes)
    requires |r.key| < 128 && |r.value| < 128 && |q.key| < 128 && |q.value| < 128
    requires BlockBuilder.Encodes(Block.Layout([r, q], [0, shared], [0]), b)
    ensures shared <= |q.key| && shared <= |r.key| && q.key[..shared] == r.key[..shared]
    ensures b == [0, |r.key|, |r.value|] + r.key + r.value
                 + [shared, |q.key| - shared, |q.value|] + q.key[shared..] + q.value
                 + [0, 0, 0, 0] + [1, 0, 0, 0]
  {
    hide Varint, Fixed32, Block.Piece;
    var lay := Block.Layout([r, q], [0, shared], [0]);
    var rs :| BlockBuilder.EncodesWith(lay, rs, b);
    assert Block.GoodShare(lay, 1);
    RowBytes(r, 0);
    RowBytes(q, shared);
    RowsData(lay);
    FirstPoint(lay, rs);
    OnePoint();
    assert r.key[0..] == r.key;
  }

  lemma RowBytes(r: Block.Row, shared: nat)
    requires |r.key| < 128 && |r.value| < 128 && shared <= |r.key|
    ensures Block.Piece(r, shared) == [shared, |r.key| - shared, |r.value|] + r.key[shared..] + r.value
  {
    hide Varint;
    SmallVarints(shared);
    SmallVarints(|r.key| - shared);
    SmallVarints(|r.value|);
  }

  lemma RowsData(lay: Block.Layout)
    requires |lay.rows| == 2 && Block.GoodLayout(lay)
    ensures lay.shares[0] == 0 && lay.shares[1] <= |lay.rows[1].key|
    ensures Block.Data(lay, 2) == Block.Piece(lay.rows[0], 0) + Block.Piece(lay.rows[1], lay.shares[1])
  {
    hide Block.Piece;
    assert Block.GoodShare(lay, 0) && Block.GoodShare(lay, 1);
    assert Block.Data(lay, 1) == [] + Block.Piece(lay.rows[0], lay.shares[0]);
  }

  lemma FirstPoint(lay: Block.Layout, rs: seq<nat>)
    requires Block.GoodLayout(lay) && lay.points == [0] && BlockBuilder.IsOffsets(lay, rs)
    ensures rs == [0]
  {
    assert Block.Off(lay, 0) == 0;
  }

  lemma OnePoint()
    ensures Fixed32(0) == [0, 0, 0, 0] && Fixed32(1) == [1, 0, 0, 0]
    ensures BlockBuilder.AllWords([0]) && BlockBuilder.Array([0], 1) == [0, 0, 0, 0]
  {
    assert BlockBuilder.Array([0], 0) == [];
  }

  /** Type 0 behind a stored block, then the masked checksum of both. */
  lemma BlockTrailer(crc: Format.Crc, contents: Bytes)
    ensures
      var t := Format.Trailer(crc, contents);
      |t| == 5 && t[0] == 0 && Little(t[1..]) == Mask(crc(contents + [0]))
  {
    hide Fixed32, Mask, Little;
    LittleEndian32(Mask(crc(contents + [0])));
    assert Format.Trailer(crc, contents)[1..] == Fixed32(Mask(crc(contents + [0])));
  }

  /** Forty-eight bytes: the handle of the metaindex, then that of the index, zeros, and the
      number that marks a table. */
  lemma FooterBytes(m: Format.BlockHandle, i: Format.BlockHandle)
    requires Format.HandleFits(m) && Format.HandleFits(i)
    ensures
      var f, h := Format.EncodeFooter(m, i), Varint(m.offset) + Varint(m.size) + Varint(i.offset) + Varint(i.size);
      && |f| == 48 && h <= f
      && (forall k :: |h| <= k < 40 ==> f[k] == 0)
      && f[40..] == [0x57, 0xfb, 0x80, 0x8b, 0x24, 0x75, 0x47, 0xdb]
  {
    hide Varint;
    Format.HandleLength(m);
    Format.HandleLength(i);
    assert Format.EncodeHandle(m) + Format.EncodeHandle(i) == Varint(m.offset) + Varint(m.size) + Varint(i.offset) + Varint(i.size);
    assert Format.Magic() == [0x57, 0xfb, 0x80, 0x8b, 0x24, 0x75, 0x47, 0xdb];
  }

  /** A filter block ends in where its offsets start and the number 11: one filter for every
      2^11 bytes of file. */
  lemma FilterBlockEnd(hash: Bloom.Hash, groups: seq<seq<Bytes>>, c: Bytes)
    requires FilterBlock.EncodesFilters(hash, groups, c)
    ensures |c| >= 5 && c[|c| - 1] == 11
    ensures Little(c[|c| - 5..|c| - 1]) == |c| - 5 - 4 * |groups|
    ensures FilterBlock.BASE == Power(11)
  {
    hide Fixed32, Little, FilterBlock.FilterAt;
    var offsets, result :| FilterBlock.EncodesFiltersWith(hash, groups, offsets, result, c);
    LittleEndian32(|result|);
    assert c[|c| - 5..|c| - 1] == Fixed32(|result|);
    assert Power(5) == 32;
    PowerAdds(5, 6);
    assert Power(6) == 64;
  }

  lemma Times(j: nat, d: nat)
    requires j > 0
    ensures j * d == (j - 1) * d + d
  {
  }

  lemma WrapStep(x: nat, d: nat)
    ensures (x % 0x1_0000_0000 + d) % 0x1_0000_0000 == (x + d) % 0x1_0000_0000
  {
    WrapAdds(x, d, 0x1_0000_0000);
  }

  /** Probe `j` adds the second hash `j` times. */
  lemma {:induction false} ProbeSum(h: Word, j: nat)
    ensures Bloom.Probe(h, j) == (h + j * Bloom.Delta(h)) % 0x1_0000_0000
  {
    hide Bloom.Delta, Wrap;
    if j > 0 {
      ProbeSum(h, j - 1);
      var d := Bloom.Delta(h);
      Times(j, d);
      WrapStep(h + (j - 1) * d, d);
    }
  }

  // ----- messages -----

  /** A field of a struct that holds `slot`, written at its number. */
  ghost function Written(tag: nat, rule: Rule, kind: Kind, slot: Slot): Bytes
    requires SlotShaped(Field(tag, rule, kind, Number(0)), slot)
  {
    var field := Field(tag, rule, kind, Number(0));
    FieldBytes(field, Sent(field, slot), 0)
  }

  /** One value: tag, then body. */
  lemma OneUnit(tag: nat, kind: Kind, v: Value)
    requires ItemShaped(kind, v)
    ensures Written(tag, Required, kind, One(v)) == Varint(8 * tag + WireType(kind)) + ItemBytes(kind, v)
  {
    hide Varint, ItemBytes, WireType;
    var field := Field(tag, Required, kind, Number(0));
    UnitStep(field, [v], 0);
    assert FieldBytes(field, [v], 1) == [];
  }

  /** Fields 1 to 15 have tags of one byte: number in the upper five bits, wire type in the lower three. */
  lemma NumberFields(tag: nat, n: int)
    requires 0 < tag < 16
    ensures 0 <= n < 0x80 ==> Written(tag, Required, Signed(4), One(Number(n))) == [8 * tag, n]
    ensures 0x80 <= n < 0x4000 ==> Written(tag, Required, Signed(4), One(Number(n))) == [8 * tag, 0x80 + n % 0x80, n / 0x80]
    ensures 0 <= n < 0x40 ==> Written(tag, Required, ZigZag(4), One(Number(n))) == [8 * tag, 2 * n]
    ensures -0x40 <= n < 0 ==> Written(tag, Required, ZigZag(4), One(Number(n))) == [8 * tag, -2 * n - 1]
  {
    hide Varint, Written;
    SmallVarints(8 * tag);
    if 0 <= n < 0x4000 {
      OneUnit(tag, Signed(4), Number(n));
      SmallVarints(n);
    }
    if -0x40 <= n < 0x40 {
      OneUnit(tag, ZigZag(4), Number(n));
      SmallVarints(Fold(n));
    }
  }

  /** A negative number takes ten bytes unless it is folded. */
  lemma NegativeNumber()
    ensures Written(1, Required, Signed(4), One(Number(-2))) == [8, 0xfe, 0xff, 0xff, 0xff, 0xff, 0xff, 0xff, 0xff, 0xff, 1]
  {
    hide Varint, Written;
    SmallVarints(8);
    OneUnit(1, Signed(4), Number(-2));
    OnesVarint();
  }

  lemma OnesVarint()
    ensures Varint(0xffff_ffff_ffff_fffe) == [0xfe, 0xff, 0xff, 0xff, 0xff, 0xff, 0xff, 0xff, 0xff, 1]
  {
    hide Varint;
    VarintStep(0xffff_ffff_ffff_fffe);
    VarintStep(0x1ff_ffff_ffff_ffff);
    VarintStep(0x3_ffff_ffff_ffff);
    VarintStep(0x7ff_ffff_ffff);
    VarintStep(0xf_ffff_ffff);
    VarintStep(0x1fff_ffff);
    VarintStep(0x3f_ffff);
    VarintStep(0x7fff);
    VarintStep(0xff);
    VarintStep(1);
  }

  /** Words are little-endian behind wire types 5 and 1, strings prefixed by their length behind 2. */
  lemma WordField(tag: nat, w: Word)
    requires 0 < tag < 16
    ensures
      var bs := Written(tag, Required, Word32, One(Number(w)));
      |bs| == 5 && bs[0] == 8 * tag + 5 && Little(bs[1..]) == w
  {
    hide Varint, Written, Fixed32, Little;
    SmallVarints(8 * tag + 5);
    OneUnit(tag, Word32, Number(w));
    LittleEndian32(w);
    assert Written(tag, Required, Word32, One(Number(w)))[1..] == Fixed32(w);
  }

  lemma LongWordField(tag: nat, v: nat)
    requires 0 < tag < 16 && v < TWO_64
    ensures
      var bs := Written(tag, Required, Word64, One(Number(v)));
      |bs| == 9 && bs[0] == 8 * tag + 1 && Little(bs[1..]) == v
  {
    hide Varint, Written, Fixed64, Little;
    SmallVarints(8 * tag + 1);
    OneUnit(tag, Word64, Number(v));
    LittleEndian64(v);
    assert Written(tag, Required, Word64, One(Number(v)))[1..] == Fixed64(v);
  }

  lemma TextField(tag: nat, text: Bytes, room: nat)
    requires 0 < tag < 16 && |text| < 0x80 && |text| <= room && 0 !in text
    ensures Written(tag, Required, Text(room), One(Data(text))) == [8 * tag + 2, |text|] + text
  {
    hide Varint, Written;
    SmallVarints(8 * tag + 2);
    SmallVarints(|text|);
    OneUnit(tag, Text(room), Data(text));
  }

  /** Arrays of numbers go behind one tag of wire type 2; other arrays repeat the tag. */
  lemma ArrayFields(tag: nat, a: Byte, b: Byte)
    requires 0 < tag < 16 && 0 < a < 0x80 && 0 < b < 0x80
    ensures Written(tag, Repeated(2), Unsigned(4), Many([Number(a), Number(b)])) == [8 * tag + 2, 2, a, b]
    ensures Written(tag, Repeated(2), Text(9), Many([Data([a]), Data([b])])) == [8 * tag + 2, 1, a, 8 * tag + 2, 1, b]
  {
    hide Varint;
    SmallVarints(8 * tag + 2);
    SmallVarints(1);
    SmallVarints(2);
    SmallVarints(a);
    SmallVarints(b);
    PackedPair(tag, a, b);
    TextPair(tag, a, b);
  }

  lemma PackedPair(tag: nat, a: Byte, b: Byte)
    ensures
      var body := Varint(a) + Varint(b);
      Written(tag, Repeated(2), Unsigned(4), Many([Number(a), Number(b)])) == Varint(8 * tag + 2) + (Varint(|body|) + body)
  {
    hide Varint;
    var field, vs := Field(tag, Repeated(2), Unsigned(4), Number(0)), [Number(a), Number(b)];
    UnitStep(field, vs, 0);
    assert FieldBytes(field, vs, 1) == [];
    assert vs[1..] == [Number(b)] && vs[1..][1..] == [];
    assert ItemsBytes(Unsigned(4), [Number(b)]) == ItemBytes(Unsigned(4), Number(b)) + [];
    assert ItemsBytes(Unsigned(4), vs) == Varint(a) + (Varint(b) + []);
  }

  lemma TextPair(tag: nat, a: Byte, b: Byte)
    requires 0 < a && 0 < b
    ensures Written(tag, Repeated(2), Text(9), Many([Data([a]), Data([b])])) == Varint(8 * tag + 2) + (Varint(1) + [a]) + (Varint(8 * tag + 2) + (Varint(1) + [b]))
  {
    hide Varint;
    var field, vs := Field(tag, Repeated(2), Text(9), Number(0)), [Data([a]), Data([b])];
    UnitStep(field, vs, 0);
    UnitStep(field, vs, 1);
    assert FieldBytes(field, vs, 2) == [];
  }

  /** A message inside another is prefixed by its length like a string. */
  lemma InnerField(tag: nat, fields: seq<Field>, slots: seq<Slot>)
    requires 0 < tag < 16 && Shaped(fields, slots) && |MessageBytes(fields, slots, 0)| < 0x80
    ensures
      var body := MessageBytes(fields, slots, 0);
      Written(tag, Required, Submessage(fields), One(Message(slots))) == [8 * tag + 2, |body|] + body
  {
    hide Varint, Written, MessageBytes;
    SmallVarints(8 * tag + 2);
    SmallVarints(|MessageBytes(fields, slots, 0)|);
    OneUnit(tag, Submessage(fields), Message(slots));
  }

  lemma FlagField(tag: nat, b: bool)
    requires 0 < tag < 16
    ensures Written(tag, Required, Boolean, One(Flag(b))) == [8 * tag, if b then 1 else 0]
  {
    hide Varint, Written;
    SmallVarints(8 * tag);
    SmallVarints(if b then 1 else 0);
    OneUnit(tag, Boolean, Flag(b));
  }

  ghost function BytesOf(fields: seq<Field>, slots: seq<Slot>, i: nat): Bytes
    requires Shaped(fields, slots) && i < |fields|
  {
    FieldBytes(fields[i], Sent(fields[i], slots[i]), 0)
  }

  ghost function BytesBefore(fields: seq<Field>, slots: seq<Slot>, i: nat): nat
    requires Shaped(fields, slots) && i <= |fields|
  {
    if i == 0 then 0 else BytesBefore(fields, slots, i - 1) + |BytesOf(fields, slots, i - 1)|
  }

  /** Fields follow each other as the descriptor lists them: field `i` stands behind the bytes of
      the fields before it. */
  lemma {:induction false} FieldsInOrder(fields: seq<Field>, slots: seq<Slot>, i: nat)
    requires Shaped(fields, slots) && i < |fields|
    ensures
      var all, n := MessageBytes(fields, slots, 0), BytesBefore(fields, slots, i);
      n <= |all| && all[n..] == BytesOf(fields, slots, i) + MessageBytes(fields, slots, i + 1)
  {
    hide BytesOf, MessageBytes;
    var all, n := MessageBytes(fields, slots, 0), BytesBefore(fields, slots, i);
    FieldFirst(fields, slots, i);
    if i == 0 {
      assert all[0..] == all;
    } else {
      FieldsInOrder(fields, slots, i - 1);
      Behind(all, BytesBefore(fields, slots, i - 1), BytesOf(fields, slots, i - 1), MessageBytes(fields, slots, i));
    }
  }

  lemma FieldFirst(fields: seq<Field>, slots: seq<Slot>, i: nat)
    requires Shaped(fields, slots) && i < |fields|
    ensures MessageBytes(fields, slots, i) == BytesOf(fields, slots, i) + MessageBytes(fields, slots, i + 1)
  {
    hide FieldBytes, Sent;
  }

  lemma Behind(all: Bytes, n: nat, a: Bytes, b: Bytes)
    requires n <= |all| && all[n..] == a + b
    ensures n + |a| <= |all| && all[n + |a|..] == b
  {
    assert all[n..][|a|..] == b;
  }

  ghost predicate LeftOut(field: Field) {
    field.rule.Optional? || field.rule.Repeated? || (field.rule.Singular? && !field.kind.Submessage? && !field.kind.Inline?)
  }

  lemma NothingSent(field: Field)
    requires FieldWellFormed(field) && LeftOut(field) && SlotShaped(field, DefaultSlot(field))
    ensures Sent(field, DefaultSlot(field)) == []
  {
    if field.rule.Singular? {
      assert field.initial == Zero(field.kind) && IsZero(field.kind, field.initial);
    }
  }

  /** A struct as it is initialised has nothing to send but what is required or of fixed size. */
  lemma {:induction false} DefaultsSendNothing(fields: seq<Field>, i: nat)
    requires i <= |fields| && WellFormed(fields)
    requires forall f :: f in fields ==> LeftOut(f)
    ensures Shaped(fields, Defaults(fields)) && MessageBytes(fields, Defaults(fields), i) == []
    decreases |fields| - i
  {
    DefaultsShaped(fields);
    if i < |fields| {
      var field, slot := fields[i], Defaults(fields)[i];
      assert field in fields && FieldWellFormed(field) && slot == DefaultSlot(field);
      NothingSent(field);
      assert FieldBytes(field, [], 0) == [];
      DefaultsSendNothing(fields, i + 1);
    }
  }
}
