/** The decoder, which takes back what the encoder wrote. */
module PbDecode {
  import opened Coding
  import opened PbMessage
  import opened PbStream
  import opened PbParse

  // ----- pieces of a stream -----

  method DecodeTag(stream: IStream, ghost tag: nat, ghost wire: nat) returns (ok: bool, eof: bool, wireType: nat, number: nat)
    requires stream.Valid()
    modifies stream
    ensures stream.Valid() && stream.left <= old(stream.left) && (ok ==> stream.left < old(stream.left) && stream.pos + stream.left == old(stream.pos + stream.left))
    ensures eof ==> stream.pos + stream.left == old(stream.pos + stream.left)
    ensures ok ==>
      var k := old(stream.left) - stream.left;
      && Accepts(old(stream.Content()), k) && 0 < Taken(old(stream.Content()), k) == 8 * number + wireType && wireType < 8
      && stream.Content() == old(stream.Content())[k..]
    ensures eof ==> !ok && exists k: nat :: Accepts(old(stream.Content()), k) && Taken(old(stream.Content()), k) == 0
    ensures !ok && !eof ==> forall k: nat :: !Accepts(old(stream.Content()), k)
    ensures 0 < tag < 0x2000_0000 && wire < 8 && Tag(tag, wire) <= old(stream.Content()) ==>
              ok && wireType == wire && number == tag && stream.Content() == old(stream.Content())[|Tag(tag, wire)|..]
  {
    hide Varint, Accepts, Taken;
    var temp;
    ok, temp := stream.DecodeVarint32(8 * tag + wire);
    eof, wireType, number := false, temp % 8, temp / 8;
    if ok && temp == 0 {
      ok, eof := false, true;
    }
  }

  /** A window on the string that comes next; the stream waits behind it. */
  method MakeSubstream(stream: IStream, ghost bs: Bytes) returns (ok: bool, sub: IStream, ghost k: nat)
    requires stream.Valid()
    modifies stream
    ensures stream.Valid() && fresh(sub) && sub.Valid() && sub.bytes == stream.bytes && stream.left <= old(stream.left)
    ensures ok ==> && sub.pos == stream.pos && sub.pos + sub.left == sub.end && stream.left < old(stream.left)
                   && sub.end + stream.left == old(stream.pos + stream.left)
    ensures ok ==>
      var content, n := old(stream.Content()), old(stream.left) - stream.left;
      PrefixAt(content, k, n) && sub.Content() == content[k..n] && stream.bytes[sub.end..sub.end + stream.left] == content[n..]
    ensures Prefixed(bs) <= old(stream.Content()) && |bs| < TWO_32 ==>
              && ok && sub.Content() == bs
              && stream.bytes[sub.end..sub.end + stream.left] == old(stream.Content())[|Prefixed(bs)|..]
  {
    hide Varint, Accepts, Taken;
    var size;
    ghost var content := stream.Content();
    ok, size := DecodeSize(stream, bs);
    k := |content| - stream.left;
    if !ok || stream.left < size {
      ok := false;
      sub := new IStream(stream.bytes, 0, 0);
      return;
    }
    SplitWindow(stream.bytes, stream.pos, stream.left, size);
    CutWindow(stream.bytes, stream.pos - k, |content|, k, size);
    sub := new IStream(stream.bytes, stream.pos, size);
    stream.left := stream.left - size;
  }

  /** The length in front of a string. */
  method DecodeSize(stream: IStream, ghost bs: Bytes) returns (ok: bool, size: Word)
    requires stream.Valid()
    modifies stream
    ensures stream.Valid() && stream.left <= old(stream.left) && (ok ==> stream.left < old(stream.left) && stream.pos + stream.left == old(stream.pos + stream.left))
    ensures ok ==>
      var k := old(stream.left) - stream.left;
      Accepts(old(stream.Content()), k) && Taken(old(stream.Content()), k) == size && stream.Content() == old(stream.Content())[k..]
    ensures Prefixed(bs) <= old(stream.Content()) && |bs| < TWO_32 ==>
              && ok && size == |bs| && bs <= stream.Content() && stream.Content()[|bs|..] == old(stream.Content())[|Prefixed(bs)|..]
  {
    hide Varint, Accepts, Taken;
    if Prefixed(bs) <= stream.Content() {
      CutPrefix(stream.Content(), Varint(|bs|), bs);
    }
    ok, size := stream.DecodeVarint32(|bs|);
  }

  lemma SplitWindow(bytes: Bytes, p: nat, n: nat, k: nat)
    requires k <= n && p + n <= |bytes|
    ensures bytes[p..p + n][..k] == bytes[p..p + k] && bytes[p..p + n][k..] == bytes[p + k..p + n]
  {
  }

  lemma CutWindow(bytes: Bytes, p: nat, n: nat, k: nat, size: nat)
    requires k + size <= n && p + n <= |bytes|
    ensures bytes[p..p + n][k..k + size] == bytes[p + k..p + k + size]
    ensures bytes[p..p + n][k + size..] == bytes[p + k + size..p + n]
  {
    var window := bytes[p..p + n];
    assert window[k..] == bytes[p + k..p + n];
    assert window[k..][..size] == window[k..k + size];
    assert bytes[p + k..p + n][..size] == bytes[p + k..p + k + size];
  }

  lemma CutPrefix(content: Bytes, x: Bytes, y: Bytes)
    requires x + y <= content
    ensures x <= content && y <= content[|x|..] && content[|x|..][|y|..] == content[|x + y|..]
  {
    assert content == x + y + content[|x + y|..];
    assert content[|x|..] == y + content[|x + y|..];
  }

  /** The stream goes on behind its substream. */
  method CloseSubstream(stream: IStream, sub: IStream)
    requires sub.Valid() && sub.bytes == stream.bytes && sub != stream && sub.end + stream.left <= stream.end <= |stream.bytes|
    modifies stream, sub
    ensures stream.Valid() && stream.left == old(stream.left) && stream.pos == old(sub.pos + sub.left)
  {
    if sub.left > 0 {
      var read, bs := sub.Read(sub.left);
    }
    stream.pos := sub.pos;
  }

  // ----- values -----

  /** A C cast to a signed integer of so many bytes. */
  function Cast(x: int, width: Width): (r: int)
    ensures 0 <= r + Half(width) < 2 * Half(width)
    ensures 0 <= x + Half(width) < 2 * Half(width) ==> r == x
  {
    if width == 1 then (x + 0x80) % 0x100 - 0x80
    else if width == 2 then (x + 0x8000) % 0x1_0000 - 0x8000
    else if width == 4 then (x + 0x8000_0000) % 0x1_0000_0000 - 0x8000_0000
    else (x + 0x8000_0000_0000_0000) % 0x1_0000_0000_0000_0000 - 0x8000_0000_0000_0000
  }

  /** Through 32 bits first, unless the field has 64. */
  function Casts(u: int, width: Width): int {
    if width == 8 then Cast(u, 8) else Cast(u % TWO_32, 4)
  }

  /** A negative number comes back from its two's complement, through 32 bits if it is short. */
  lemma CastComplement(n: int, width: Width)
    requires 0 <= n + Half(width) < 2 * Half(width)
    ensures 0 <= Complement(n) < TWO_64 && Casts(Complement(n), width) == n && Cast(n, width) == n
  {
    if width != 8 {
      var u := Complement(n) % TWO_32;
      assert u == if n < 0 then n + TWO_32 else n;
    }
  }

  function Unfold(u: nat): int {
    if u % 2 == 1 then -(u / 2) - 1 else u / 2
  }

  /** A C string ends at the first zero byte. */
  function CString(bs: Bytes): (r: Bytes)
    ensures 0 !in r && |r| <= |bs| && (0 !in bs ==> r == bs)
  {
    if bs == [] || bs[0] == 0 then [] else [bs[0]] + CString(bs[1..])
  }

  /** The value of a signed varint as its field's type, unless it is too large for it. */
  method DecodeSigned(stream: IStream, width: Width, ghost n: int) returns (ok: bool, value: int)
    requires stream.Valid()
    modifies stream
    ensures stream.Valid() && stream.left <= old(stream.left) && (ok ==> stream.left < old(stream.left) && stream.pos + stream.left == old(stream.pos + stream.left))
    ensures ok ==>
      var n := old(stream.left) - stream.left;
      EndsVarint(old(stream.Content()), n) && n <= 10 && stream.Content() == old(stream.Content())[n..]
    ensures 0 <= value + Half(width) < 2 * Half(width)
    ensures 0 <= n + Half(width) < 2 * Half(width) && Varint(Complement(n)) <= old(stream.Content()) ==>
              ok && value == n && stream.Content() == old(stream.Content())[|Varint(Complement(n))|..]
  {
    hide Varint, Cast, Casts, Complement, Half, EndsVarint, Encoded;
    ghost var inRange := 0 <= n + Half(width) < 2 * Half(width);
    if inRange {
      CastComplement(n, width);
    }
    var u;
    ok, u := stream.DecodeVarint(if inRange then Complement(n) else 0);
    var svalue := Casts(u, width);
    value := Cast(svalue, width);
    ok := ok && value == svalue;
  }

  lemma AtMostWord(width: Width)
    ensures 0 < 2 * Half(width) <= TWO_64
  {
  }

  method DecodeUnsigned(stream: IStream, width: Width, ghost n: int) returns (ok: bool, value: nat)
    requires stream.Valid()
    modifies stream
    ensures stream.Valid() && stream.left <= old(stream.left) && (ok ==> stream.left < old(stream.left) && stream.pos + stream.left == old(stream.pos + stream.left))
    ensures ok ==>
      var n := old(stream.left) - stream.left;
      EndsVarint(old(stream.Content()), n) && n <= 10 && stream.Content() == old(stream.Content())[n..]
    ensures value < 2 * Half(width)
    ensures 0 <= n < 2 * Half(width) && Varint(n) <= old(stream.Content()) ==>
              ok && value == n && stream.Content() == old(stream.Content())[|Varint(n)|..]
  {
    hide Varint, EndsVarint, Encoded, Half, Wrap;
    var u;
    ok, u := stream.DecodeVarint(if n >= 0 then n else 0);
    AtMostWord(width);
    value := Wrap(u, 2 * Half(width));
    ok := ok && value == u;
  }

  method DecodeZigZag(stream: IStream, width: Width, ghost n: int) returns (ok: bool, value: int)
    requires stream.Valid()
    modifies stream
    ensures stream.Valid() && stream.left <= old(stream.left) && (ok ==> stream.left < old(stream.left) && stream.pos + stream.left == old(stream.pos + stream.left))
    ensures ok ==>
      var n := old(stream.left) - stream.left;
      EndsVarint(old(stream.Content()), n) && n <= 10 && stream.Content() == old(stream.Content())[n..]
    ensures 0 <= value + Half(width) < 2 * Half(width)
    ensures 0 <= n + Half(width) < 2 * Half(width) && Varint(Fold(n)) <= old(stream.Content()) ==>
              ok && value == n && stream.Content() == old(stream.Content())[|Varint(Fold(n))|..]
  {
    hide Varint, EndsVarint, Encoded;
    var u;
    ok, u := stream.DecodeVarint(Fold(n));
    value := Cast(Unfold(u), width);
    ok := ok && value == Unfold(u);
  }

  /** A string behind its length, which must not exceed `most`. */
  method DecodeString(stream: IStream, most: int, ghost bs: Bytes) returns (ok: bool, value: Bytes)
    requires stream.Valid()
    modifies stream
    ensures stream.Valid() && stream.left <= old(stream.left) && (ok ==> stream.left < old(stream.left) && |value| <= most && stream.pos + stream.left == old(stream.pos + stream.left))
    ensures ok ==>
      var n := old(stream.left) - stream.left;
      Delimited(old(stream.Content()), n) && stream.Content() == old(stream.Content())[n..]
    ensures Prefixed(bs) <= old(stream.Content()) && |bs| < TWO_32 ==>
              && (ok <==> |bs| <= most)
              && (ok ==> value == bs && stream.Content() == old(stream.Content())[|Prefixed(bs)|..])
  {
    hide Varint, Accepts, Taken, Delimited;
    ghost var content := stream.Content();
    value := [];
    var size;
    ok, size := DecodeSize(stream, bs);
    ghost var rest := stream.Content();
    if !ok || size > most {
      return false, [];
    }
    ok, value := stream.Read(size);
    if ok {
      StringEnds(content, |content| - |rest|, size);
      assert value == rest[..size] && stream.Content() == rest[size..];
    }
  }

  lemma StringEnds(content: Bytes, k: nat, size: nat)
    requires Accepts(content, k) && Taken(content, k) == size && k + size <= |content|
    ensures Delimited(content, k + size) && content[k..][size..] == content[k + size..]
  {
    hide Accepts, Taken;
    assert PrefixAt(content, k, k + size);
  }

  /** Inline bytes: all of them, or none for zeros. */
  method DecodeInline(stream: IStream, n: nat, ghost bs: Bytes) returns (ok: bool, value: Bytes)
    requires stream.Valid()
    modifies stream
    ensures stream.Valid() && stream.left <= old(stream.left) && (ok ==> stream.left < old(stream.left) && |value| == n && stream.pos + stream.left == old(stream.pos + stream.left))
    ensures ok ==>
      var m := old(stream.left) - stream.left;
      Delimited(old(stream.Content()), m) && stream.Content() == old(stream.Content())[m..]
    ensures Prefixed(bs) <= old(stream.Content()) && |bs| == n < TWO_32 ==>
              ok && value == bs && stream.Content() == old(stream.Content())[|Prefixed(bs)|..]
  {
    hide Varint, Accepts, Taken, Delimited;
    ghost var content := stream.Content();
    value := [];
    var size;
    ok, size := DecodeSize(stream, bs);
    if !ok {
      return;
    }
    ghost var rest := stream.Content();
    if size == 0 {
      StringEnds(content, |content| - |rest|, 0);
      value := seq(n, _ => 0);
      return;
    }
    if size != n {
      return false, [];
    }
    ok, value := stream.Read(size);
    if ok {
      StringEnds(content, |content| - |rest|, size);
      assert value == rest[..size] && stream.Content() == rest[size..];
    }
  }

  // ----- what a piece of the stream means -----

  ghost predicate KindWellFormed(kind: Kind) {
    kind.Submessage? ==> WellFormed(kind.fields)
  }

  /** The content starts with a value that the encoder accepted. */
  ghost predicate StartsWith(content: Bytes, kind: Kind, v: Value) {
    ItemShaped(kind, v) && ItemFits(kind, v) && ItemBytes(kind, v) <= content && |content| < TWO_32
  }

  /** The content is a message that the encoder accepted. */
  ghost predicate Holds(content: Bytes, fields: seq<Field>, msg: seq<Slot>) {
    Shaped(fields, msg) && Fits(fields, msg) && content == MessageBytes(fields, msg, 0) && |content| < TWO_32
  }

  method DecodeBool(stream: IStream, ghost b: bool) returns (ok: bool, value: bool)
    requires stream.Valid()
    modifies stream
    ensures stream.Valid() && stream.left <= old(stream.left)
    ensures ok ==> stream.left < old(stream.left) && stream.pos + stream.left == old(stream.pos + stream.left)
    ensures ok ==>
      var n := old(stream.left) - stream.left;
      Accepts(old(stream.Content()), n) && stream.Content() == old(stream.Content())[n..]
    ensures var n := if b then 1 else 0;
      Varint(n) <= old(stream.Content()) ==> ok && value == b && stream.Content() == old(stream.Content())[|Varint(n)|..]
  {
    hide Varint, Accepts, Taken;
    var u;
    ok, u := stream.DecodeVarint32(if b then 1 else 0);
    value := u != 0;
  }

  method DecodeFixedWord(stream: IStream, ghost n: int) returns (ok: bool, value: Word)
    requires stream.Valid()
    modifies stream
    ensures stream.Valid() && stream.left <= old(stream.left)
    ensures ok ==> stream.left < old(stream.left) && stream.pos + stream.left == old(stream.pos + stream.left)
    ensures ok ==> old(stream.left) - stream.left == 4 && stream.Content() == old(stream.Content())[4..]
    ensures 0 <= n < TWO_32 && Fixed32(n) <= old(stream.Content()) ==> ok && value == n && stream.Content() == old(stream.Content())[4..]
  {
    hide Fixed32, DecodeFixed32;
    ghost var content := stream.Content();
    var bs;
    ok, bs := stream.Read(4);
    value := if ok then DecodeFixed32(bs) else 0;
    if 0 <= n < TWO_32 && Fixed32(n) <= content {
      Fixed32RoundTrip(n, []);
      assert Fixed32(n) + [] == Fixed32(n) == content[..4];
    }
  }

  method DecodeFixedDouble(stream: IStream, ghost n: int) returns (ok: bool, value: nat)
    requires stream.Valid()
    modifies stream
    ensures stream.Valid() && stream.left <= old(stream.left) && value < TWO_64
    ensures ok ==> stream.left < old(stream.left) && stream.pos + stream.left == old(stream.pos + stream.left)
    ensures ok ==> old(stream.left) - stream.left == 8 && stream.Content() == old(stream.Content())[8..]
    ensures 0 <= n < TWO_64 && Fixed64(n) <= old(stream.Content()) ==> ok && value == n && stream.Content() == old(stream.Content())[8..]
  {
    hide Fixed64, DecodeFixed64;
    ghost var content := stream.Content();
    var bs;
    ok, bs := stream.Read(8);
    value := 0;
    if ok {
      DecodedFits(bs);
      value := DecodeFixed64(bs);
    }
    if 0 <= n < TWO_64 && Fixed64(n) <= content {
      Fixed64RoundTrip(n);
      assert Fixed64(n) == content[..8];
    }
  }

  method DecodeFlag(stream: IStream, ghost v: Value) returns (ok: bool, value: Value)
    requires stream.Valid()
    modifies stream
    ensures stream.Valid() && stream.left <= old(stream.left)
    ensures ok ==> ItemShaped(Boolean, value) && stream.left < old(stream.left) && stream.pos + stream.left == old(stream.pos + stream.left)
    ensures ok ==> var n := old(stream.left) - stream.left; Span(Boolean, old(stream.Content()), n) && stream.Content() == old(stream.Content())[n..]
    ensures StartsWith(old(stream.Content()), Boolean, v) ==>
              && (ok <==> ItemTerminated(Boolean, v))
              && (ok ==> value == v && stream.Content() == old(stream.Content())[|ItemBytes(Boolean, v)|..])
  {
    hide Varint, Fixed32, Fixed64, DecodeFixed32, DecodeFixed64, Accepts, Taken, EndsVarint, Delimited;
    ghost var good := StartsWith(stream.Content(), Boolean, v);
    var b;
    ok, b := DecodeBool(stream, good && v.b);
    value := Flag(b);
  }

  /** The number that the content starts with, as its kind writes it. */
  lemma NumberStart(content: Bytes, kind: Kind, v: Value) returns (n: int)
    requires kind.Signed? || kind.Unsigned? || kind.ZigZag?
    ensures StartsWith(content, kind, v) ==>
      && v == Number(n) && ItemShaped(kind, v) && ItemBytes(kind, v) <= content
      && (kind.Signed? ==> ItemBytes(kind, v) == Varint(Complement(n)))
      && (kind.Unsigned? ==> ItemBytes(kind, v) == Varint(n))
      && (kind.ZigZag? ==> ItemBytes(kind, v) == Varint(Fold(n)))
  {
    hide Varint;
    n := if StartsWith(content, kind, v) then v.n else 0;
  }

  lemma VarintSpan(kind: Kind, bs: Bytes)
    requires kind.Signed? || kind.Unsigned? || kind.ZigZag?
    ensures forall n: nat :: EndsVarint(bs, n) && n <= 10 ==> Span(kind, bs, n)
  {
  }

  method DecodeNumber(stream: IStream, kind: Kind, ghost v: Value) returns (ok: bool, value: Value)
    requires stream.Valid() && (kind.Signed? || kind.Unsigned? || kind.ZigZag?)
    modifies stream
    ensures stream.Valid() && stream.left <= old(stream.left)
    ensures ok ==> ItemShaped(kind, value) && stream.left < old(stream.left) && stream.pos + stream.left == old(stream.pos + stream.left)
    ensures ok ==> var n := old(stream.left) - stream.left; Span(kind, old(stream.Content()), n) && stream.Content() == old(stream.Content())[n..]
    ensures StartsWith(old(stream.Content()), kind, v) ==>
              && (ok <==> ItemTerminated(kind, v))
              && (ok ==> value == v && stream.Content() == old(stream.Content())[|ItemBytes(kind, v)|..])
  {
    hide Varint, Accepts, Taken, EndsVarint, Delimited, StartsWith, ItemBytes, Complement, Fold, Span;
    ghost var n := NumberStart(stream.Content(), kind, v);
    VarintSpan(kind, stream.Content());
    var x;
    match kind {
      case Signed(width) => ok, x := DecodeSigned(stream, width, n);
      case Unsigned(width) => ok, x := DecodeUnsigned(stream, width, n);
      case ZigZag(width) => ok, x := DecodeZigZag(stream, width, n);
    }
    value := Number(x);
  }

  method DecodeWord(stream: IStream, kind: Kind, ghost v: Value) returns (ok: bool, value: Value)
    requires stream.Valid() && (kind.Word32? || kind.Word64?)
    modifies stream
    ensures stream.Valid() && stream.left <= old(stream.left)
    ensures ok ==> ItemShaped(kind, value) && stream.left < old(stream.left) && stream.pos + stream.left == old(stream.pos + stream.left)
    ensures ok ==> var n := old(stream.left) - stream.left; Span(kind, old(stream.Content()), n) && stream.Content() == old(stream.Content())[n..]
    ensures StartsWith(old(stream.Content()), kind, v) ==>
              && (ok <==> ItemTerminated(kind, v))
              && (ok ==> value == v && stream.Content() == old(stream.Content())[|ItemBytes(kind, v)|..])
  {
    hide Varint, Fixed32, Fixed64, DecodeFixed32, DecodeFixed64, Accepts, Taken, EndsVarint, Delimited;
    ghost var good := StartsWith(stream.Content(), kind, v);
    ghost var n := if good then v.n else 0;
    var x;
    match kind {
      case Word32 => ok, x := DecodeFixedWord(stream, n);
      case Word64 => ok, x := DecodeFixedDouble(stream, n);
    }
    value := Number(x);
  }

  /** The bytes of a value that the content starts with. */
  lemma DataStart(content: Bytes, kind: Kind, v: Value) returns (bytes: Bytes)
    requires kind.ByteArray? || kind.Text? || kind.Inline?
    ensures StartsWith(content, kind, v) ==>
      && v == Data(bytes) && ItemShaped(kind, v) && ItemFits(kind, v) && ItemBytes(kind, v) == Prefixed(bytes) <= content
      && |bytes| < TWO_32
  {
    hide Varint;
    bytes := if StartsWith(content, kind, v) then v.bytes else [];
  }

  method DecodeData(stream: IStream, kind: Kind, ghost v: Value) returns (ok: bool, value: Value)
    requires stream.Valid() && (kind.ByteArray? || kind.Text? || kind.Inline?)
    modifies stream
    ensures stream.Valid() && stream.left <= old(stream.left)
    ensures ok ==> ItemShaped(kind, value) && stream.left < old(stream.left) && stream.pos + stream.left == old(stream.pos + stream.left)
    ensures ok ==> var n := old(stream.left) - stream.left; Span(kind, old(stream.Content()), n) && stream.Content() == old(stream.Content())[n..]
    ensures StartsWith(old(stream.Content()), kind, v) ==>
              && (ok <==> ItemTerminated(kind, v))
              && (ok ==> value == v && stream.Content() == old(stream.Content())[|ItemBytes(kind, v)|..])
  {
    hide Prefixed, CString, StartsWith, ItemBytes, Delimited;
    ghost var bytes := DataStart(stream.Content(), kind, v);
    var x;
    match kind {
      case ByteArray(room) => ok, x := DecodeString(stream, room, bytes);
      case Text(room) =>
        ok, x := DecodeString(stream, room - 1, bytes);
        x := CString(x);
      case Inline(size) => ok, x := DecodeInline(stream, size, bytes);
    }
    value := Data(x);
  }

  /** Items that have no parts. */
  method DecodeScalar(stream: IStream, kind: Kind, ghost v: Value) returns (ok: bool, value: Value)
    requires stream.Valid() && !kind.Submessage?
    modifies stream
    ensures stream.Valid() && stream.left <= old(stream.left)
    ensures ok ==> ItemShaped(kind, value) && stream.left < old(stream.left) && stream.pos + stream.left == old(stream.pos + stream.left)
    ensures ok ==> var n := old(stream.left) - stream.left; Span(kind, old(stream.Content()), n) && stream.Content() == old(stream.Content())[n..]
    ensures StartsWith(old(stream.Content()), kind, v) ==>
              && (ok <==> ItemTerminated(kind, v))
              && (ok ==> value == v && stream.Content() == old(stream.Content())[|ItemBytes(kind, v)|..])
  {
    hide ItemShaped, ItemTerminated, ItemBytes, Span, StartsWith;
    match kind
    case Boolean =>
      ok, value := DecodeFlag(stream, v);
    case Signed(_) =>
      ok, value := DecodeNumber(stream, kind, v);
    case Unsigned(_) =>
      ok, value := DecodeNumber(stream, kind, v);
    case ZigZag(_) =>
      ok, value := DecodeNumber(stream, kind, v);
    case Word32 =>
      ok, value := DecodeWord(stream, kind, v);
    case Word64 =>
      ok, value := DecodeWord(stream, kind, v);
    case ByteArray(_) =>
      ok, value := DecodeData(stream, kind, v);
    case Text(_) =>
      ok, value := DecodeData(stream, kind, v);
    case Inline(_) =>
      ok, value := DecodeData(stream, kind, v);
  }

  lemma DecodedFits(bs: Bytes)
    requires |bs| == 8
    ensures 0 <= DecodeFixed64(bs) < TWO_64
  {
    hide DecodeFixed32;
    var low: Word, high: Word := DecodeFixed32(bs), DecodeFixed32(bs[4..]);
  }

  // ----- a struct that is being filled -----

  /** The slot after `j` units of its field. */
  function Received(field: Field, m: Slot, j: nat): Slot
    requires SlotShaped(field, m) && j <= Units(field, Sent(field, m))
  {
    if j == 0 then DefaultSlot(field)
    else match m
      case One(v) => One(CleanItem(field.kind, v))
      case Maybe(has, v) => Maybe(true, CleanItem(field.kind, v))
      case Many(items) => Many(CleanItems(field.kind, if Packed(field) then items else items[..j]))
      case All(items) =>
        All(if Packed(field) then CleanItems(field.kind, items)
            else CleanItems(field.kind, items[..j]) + DefaultSlot(field).items[j..])
  }

  /** How many values those units held. */
  function Got(field: Field, vs: seq<Value>, j: nat): nat {
    if Packed(field) then if j == 0 then 0 else |vs| else j
  }

  /** After its last unit a slot holds what was encoded. */
  lemma ReceivedAll(field: Field, m: Slot)
    requires SlotShaped(field, m) && FieldWellFormed(field)
    ensures Received(field, m, Units(field, Sent(field, m))) == CleanSlot(field, m)
  {
    match field.rule
    case Singular =>
      if IsZero(field.kind, m.value) {
        ZeroIsClean(field.kind, m.value);
        assert DefaultValue(field) == Zero(field.kind);
      }
    case Repeated(_) => assert m.items[..|m.items|] == m.items;
    case Fixed(_) => assert m.items[..|m.items|] == m.items;
    case _ =>
  }

  /** A value that counts as zero is the default, up to what is not set. */
  lemma {:induction false} ZeroIsClean(kind: Kind, v: Value)
    requires ItemShaped(kind, v) && KindWellFormed(kind) && IsZero(kind, v)
    ensures CleanItem(kind, v) == Zero(kind)
    decreases kind
  {
    match kind
    case Submessage(fields) =>
      assert Shaped(fields, v.slots);
      forall i | 0 <= i < |fields| ensures CleanSlot(fields[i], v.slots[i]) == DefaultSlot(fields[i]) {
        assert SlotShaped(fields[i], v.slots[i]) && IsUnset(fields[i], v.slots[i]) && FieldWellFormed(fields[i]);
        if fields[i].rule.Singular? {
          ZeroIsClean(fields[i].kind, v.slots[i].value);
        }
      }
      assert Clean(fields, v.slots) == Defaults(fields);
    case Inline(size) => assert v.bytes == seq(size, _ => 0);
    case _ =>
  }

  lemma {:induction false} ZeroShaped(kind: Kind)
    requires KindWellFormed(kind)
    ensures ItemShaped(kind, Zero(kind))
    decreases kind
  {
    match kind
    case Submessage(fields) => DefaultsShaped(fields);
    case _ =>
  }

  lemma {:induction false} DefaultsShaped(fields: seq<Field>)
    requires WellFormed(fields)
    ensures Shaped(fields, Defaults(fields))
    decreases fields
  {
    forall i | 0 <= i < |fields| ensures SlotShaped(fields[i], DefaultSlot(fields[i])) {
      DefaultShaped(fields[i]);
    }
  }

  lemma {:induction false} DefaultShaped(field: Field)
    requires FieldWellFormed(field)
    ensures SlotShaped(field, DefaultSlot(field))
    decreases field
  {
    ZeroShaped(field.kind);
  }
}
