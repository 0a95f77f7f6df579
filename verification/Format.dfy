/** What a table file is made of: handles, blocks with their trailers, and the footer. */
module Format {
  import opened Coding

  datatype BlockHandle = BlockHandle(offset: nat, size: nat)

  const WORD64: nat := 0x1_0000_0000_0000_0000

  ghost predicate HandleFits(h: BlockHandle) {
    h.offset < WORD64 && h.size < WORD64
  }

  function EncodeHandle(h: BlockHandle): Bytes {
    Varint(h.offset) + Varint(h.size)
  }

  method DecodeHandle(bs: Bytes, ghost h: BlockHandle) returns (ok: bool, handle: BlockHandle, next: nat)
    ensures ok ==> next <= |bs| && HandleFits(handle)
    ensures HandleFits(h) && EncodeHandle(h) <= bs ==> ok && handle == h && next == |EncodeHandle(h)|
  {
    hide Varint, EndsVarint, Encoded;
    handle := BlockHandle(0, 0);
    ghost var a, b := if HandleFits(h) then h.offset else 0, if HandleFits(h) then h.size else 0;
    if EncodeHandle(h) <= bs {
      TailPrefix(Varint(h.offset), Varint(h.size), bs);
    }
    assert bs[0..|bs|] == bs;
    var offset, size;
    ok, offset, next := GetVarint64(bs, 0, |bs|, a);
    if !ok {
      return;
    }
    assert bs[next..|bs|] == bs[next..];
    ok, size, next := GetVarint64(bs, next, |bs|, b);
    handle := BlockHandle(offset, size);
  }

  lemma HandleLength(h: BlockHandle)
    requires HandleFits(h)
    ensures |EncodeHandle(h)| <= HANDLE
  {
    hide Varint;
    AtMostTen(h.offset);
    AtMostTen(h.size);
  }

  // ----- the footer -----

  /** kMaxEncodedLength of a handle, kEncodedLength of the footer, and kTableMagicNumber */
  const HANDLE: nat := 20
  const FOOTER: nat := 48
  const MAGIC_LOW: Word := 0x8b80fb57
  const MAGIC_HIGH: Word := 0xdb477524

  function Padded(bs: Bytes): (r: Bytes)
    requires |bs| <= 40
    ensures |r| == 40 && bs <= r
  {
    bs + seq(40 - |bs|, _ => 0)
  }

  function Magic(): (r: Bytes)
    ensures |r| == 8
  {
    Fixed32(MAGIC_LOW) + Fixed32(MAGIC_HIGH)
  }

  function EncodeFooter(metaindex: BlockHandle, index: BlockHandle): (r: Bytes)
    requires HandleFits(metaindex) && HandleFits(index)
    ensures |r| == FOOTER
  {
    HandleLength(metaindex);
    HandleLength(index);
    Padded(EncodeHandle(metaindex) + EncodeHandle(index)) + Magic()
  }

  lemma FooterParts(metaindex: BlockHandle, index: BlockHandle)
    requires HandleFits(metaindex) && HandleFits(index)
    ensures
      var bs := EncodeFooter(metaindex, index);
      && EncodeHandle(metaindex) <= bs && EncodeHandle(index) <= bs[|EncodeHandle(metaindex)|..]
      && DecodeFixed32(bs[40..]) == MAGIC_LOW && DecodeFixed32(bs[44..]) == MAGIC_HIGH
  {
    hide EncodeHandle, Fixed32, DecodeFixed32;
    HandleLength(metaindex);
    HandleLength(index);
    var bs, a, b := EncodeFooter(metaindex, index), EncodeHandle(metaindex), EncodeHandle(index);
    assert a + b <= Padded(a + b) <= bs;
    TailPrefix(a, b, bs);
    assert bs[40..] == Magic() && bs[44..] == Fixed32(MAGIC_HIGH) + [];
    Fixed32RoundTrip(MAGIC_LOW, Fixed32(MAGIC_HIGH));
    Fixed32RoundTrip(MAGIC_HIGH, []);
  }

  /** Refuses what does not end in the magic number, and reads back both handles. */
  method DecodeFooter(bs: Bytes, ghost m: BlockHandle, ghost i: BlockHandle) returns (ok: bool, metaindex: BlockHandle, index: BlockHandle)
    requires |bs| == FOOTER
    ensures ok ==> DecodeFixed32(bs[40..]) == MAGIC_LOW && DecodeFixed32(bs[44..]) == MAGIC_HIGH
    ensures HandleFits(m) && HandleFits(i) && bs == EncodeFooter(m, i) ==> ok && metaindex == m && index == i
  {
    hide EncodeHandle, DecodeFixed32, EncodeFooter;
    ok, metaindex, index := false, BlockHandle(0, 0), BlockHandle(0, 0);
    if HandleFits(m) && HandleFits(i) && bs == EncodeFooter(m, i) {
      FooterParts(m, i);
    }
    if DecodeFixed32(bs[40..]) != MAGIC_LOW || DecodeFixed32(bs[44..]) != MAGIC_HIGH {
      return;
    }
    var next;
    ok, metaindex, next := DecodeHandle(bs, m);
    if ok {
      ok, index, next := DecodeHandle(bs[next..], i);
    }
  }

  // ----- reading -----

  /** kBlockTrailerSize */
  const TRAILER: nat := 5

  type Crc = Bytes -> Word

  /** Compression type (none) and masked checksum. */
  function Trailer(crc: Crc, contents: Bytes): (r: Bytes)
    ensures |r| == TRAILER
  {
    [0] + Fixed32(Mask(crc(contents + [0])))
  }

  ghost predicate StoredAt(crc: Crc, file: Bytes, h: BlockHandle, contents: Bytes) {
    && h.size == |contents| && h.offset + h.size + TRAILER <= |file|
    && file[h.offset..h.offset + h.size] == contents
    && file[h.offset + h.size..h.offset + h.size + TRAILER] == Trailer(crc, contents)
  }

  /** The file reaches as far as the handle says, the block is not compressed, and its checksum
      is right if it is looked at. */
  predicate Intact(crc: Crc, verifyChecksums: bool, file: Bytes, h: BlockHandle) {
    var n := h.offset + h.size;
    && n + TRAILER <= |file| && file[n] == 0
    && (verifyChecksums ==> crc(file[h.offset..n] + [0]) == Unmask(DecodeFixed32(file[n + 1..n + TRAILER])))
  }

  method ReadBlock(crc: Crc, verifyChecksums: bool, file: Bytes, h: BlockHandle, ghost stored: Bytes) returns (ok: bool, contents: Bytes)
    ensures ok <==> Intact(crc, verifyChecksums, file, h)
    ensures ok ==> contents == file[h.offset..h.offset + h.size]
    ensures StoredAt(crc, file, h, stored) ==> ok && contents == stored
  {
    ok, contents := false, [];
    if h.offset + h.size + TRAILER > |file| {
      return;
    }
    var n := h.offset + h.size;
    contents := file[h.offset..n];
    var trailer := file[n..n + TRAILER];
    assert trailer[..1] == [file[n]] && trailer[1..] == file[n + 1..n + TRAILER];
    if StoredAt(crc, file, h, stored) {
      var word := Fixed32(Mask(crc(stored + [0])));
      assert trailer[1..] == word + [];
      Fixed32RoundTrip(Mask(crc(stored + [0])), []);
      UnmaskInverts(crc(stored + [0]));
    }
    if verifyChecksums {
      if crc(contents + trailer[..1]) != Unmask(DecodeFixed32(trailer[1..])) {
        return;
      }
    }
    ok := trailer[0] == 0;
  }
}
