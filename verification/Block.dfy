/** Blocks of prefix-compressed rows with restart points, and the iterator that searches them. */
module Block {
  import opened Coding

  datatype Row = Row(key: Bytes, value: Bytes)

  /** A key's place in the comparator's order. */
  type Rank = Bytes -> real

  // ----- the layout of a block -----

  /** Rows, how much of its key each shares with the row before, and the rows that are
      restart points. */
  datatype Layout = Layout(rows: seq<Row>, shares: seq<nat>, points: seq<nat>)

  /** Row `i` can be rebuilt from row `i - 1`, or from nothing if it shares nothing. */
  predicate GoodShare(lay: Layout, i: nat)
    requires i < |lay.rows| == |lay.shares|
  {
    var s := lay.shares[i];
    && s <= |lay.rows[i].key|
    && (s > 0 ==> i > 0 && s <= |lay.rows[i - 1].key| && lay.rows[i - 1].key[..s] == lay.rows[i].key[..s])
  }

  ghost predicate GoodPoints(lay: Layout) {
    && |lay.rows| == |lay.shares|
    && lay.points != [] && lay.points[0] == 0
    && (forall k :: 0 < k < |lay.points| ==> lay.points[k] < |lay.rows|)
    && (forall k :: 0 <= k < |lay.points| && lay.points[k] < |lay.rows| ==> lay.shares[lay.points[k]] == 0)
    && (forall j, k :: 0 <= j < k < |lay.points| ==> lay.points[j] < lay.points[k])
  }

  ghost predicate GoodLayout(lay: Layout) {
    GoodPoints(lay) && forall i :: 0 <= i < |lay.rows| ==> GoodShare(lay, i)
  }

  /** The varint lengths that open an entry. */
  function Lengths(r: Row, shared: nat): Bytes
    requires shared <= |r.key|
  {
    Varint(shared) + (Varint(|r.key| - shared) + Varint(|r.value|))
  }

  function Piece(r: Row, shared: nat): (b: Bytes)
    requires shared <= |r.key|
    ensures |b| == |Lengths(r, shared)| + (|r.key| - shared) + |r.value| && |b| >= 3
  {
    Lengths(r, shared) + (r.key[shared..] + r.value)
  }

  /** The bytes of the first `n` rows. */
  ghost function Data(lay: Layout, n: nat): Bytes
    requires GoodLayout(lay) && n <= |lay.rows|
  {
    if n == 0 then []
    else
      assert GoodShare(lay, n - 1);
      Data(lay, n - 1) + Piece(lay.rows[n - 1], lay.shares[n - 1])
  }

  ghost function Off(lay: Layout, n: nat): nat
    requires GoodLayout(lay) && n <= |lay.rows|
  {
    |Data(lay, n)|
  }

  lemma {:induction false} OffsetsGrow(lay: Layout, i: nat, j: nat)
    requires GoodLayout(lay) && i <= j <= |lay.rows|
    ensures Off(lay, i) <= Off(lay, j) && (i < j ==> Off(lay, i) < Off(lay, j))
    ensures Data(lay, i) <= Data(lay, j)
  {
    if i < j {
      OffsetsGrow(lay, i, j - 1);
    }
  }

  /** Row `i` is found at its offset. */
  lemma PieceAt(lay: Layout, i: nat)
    requires GoodLayout(lay) && i < |lay.rows|
    ensures Off(lay, i) <= Off(lay, i + 1) <= |Data(lay, |lay.rows|)|
    ensures GoodShare(lay, i)
    ensures Off(lay, i + 1) == Off(lay, i) + |Piece(lay.rows[i], lay.shares[i])|
    ensures Piece(lay.rows[i], lay.shares[i]) <= Data(lay, |lay.rows|)[Off(lay, i)..]
  {
    OffsetsGrow(lay, i + 1, |lay.rows|);
    var d, piece := Data(lay, |lay.rows|), Piece(lay.rows[i], lay.shares[i]);
    assert Data(lay, i + 1) == Data(lay, i) + piece;
    assert d[..Off(lay, i + 1)] == Data(lay, i + 1);
    assert d[Off(lay, i)..Off(lay, i + 1)] == piece;
  }

  // ----- decoding -----

  predicate Fits(r: Row) {
    |r.key| < 0x1_0000_0000 && |r.value| < 0x1_0000_0000
  }

  /** Three varints in a row, the last ending at byte `n`. */
  ghost predicate HeaderAt(bs: Bytes, shared: Word, nonShared: Word, valueLength: Word, i: nat, j: nat, n: nat) {
    && 0 < i < j < n <= |bs|
    && Parses32(bs, shared, i) && Parses32(bs[i..], nonShared, j - i) && Parses32(bs[j..], valueLength, n - j)
  }

  ghost predicate Header(bs: Bytes, shared: Word, nonShared: Word, valueLength: Word, n: nat) {
    exists i: nat, j: nat :: HeaderAt(bs, shared, nonShared, valueLength, i, j, n)
  }

  lemma HeaderOnce(bs: Bytes, a: Word, b: Word, c: Word, n: nat, a': Word, b': Word, c': Word, n': nat)
    requires Header(bs, a, b, c, n) && Header(bs, a', b', c', n')
    ensures a == a' && b == b' && c == c' && n == n'
  {
    hide Parses32;
    var i: nat, j: nat :| HeaderAt(bs, a, b, c, i, j, n);
    var i': nat, j': nat :| HeaderAt(bs, a', b', c', i', j', n');
    Parses32Once(bs, a, i, a', i');
    Parses32Once(bs[i..], b, j - i, b', j' - i');
    Parses32Once(bs[j..], c, n - j, c', n' - j');
  }

  /** A row's own lengths are what is read. */
  lemma PieceHeader(r: Row, shared: nat, bs: Bytes)
    requires shared <= |r.key| && Fits(r) && Piece(r, shared) <= bs
    ensures Header(bs, shared, |r.key| - shared, |r.value|, |Lengths(r, shared)|)
  {
    hide Varint, Parses32;
    var a, b, c := Varint(shared), Varint(|r.key| - shared), Varint(|r.value|);
    TailPrefix(a + (b + c), r.key[shared..] + r.value, bs);
    TailPrefix(a, b + c, bs);
    TailPrefix(b, c, bs[|a|..]);
    assert bs[|a|..][|b|..] == bs[|a| + |b|..];
    Parses32Varint(bs, shared);
    Parses32Varint(bs[|a|..], |r.key| - shared);
    Parses32Varint(bs[|a| + |b|..], |r.value|);
    assert HeaderAt(bs, shared, |r.key| - shared, |r.value|, |a|, |a| + |b|, |a| + |b| + |c|);
  }

  /** `a + b` in 32 bits */
  function Sum32(a: Word, b: Word): Word {
    if a + b < 0x1_0000_0000 then a + b else a + b - 0x1_0000_0000
  }

  lemma OneDigit(bs: Bytes)
    requires bs != [] && bs[0] < 128
    ensures Parses32(bs, bs[0], 1)
  {
    assert Encoded(bs, 0) == 0 && Shift(0) == 1;
  }

  lemma ShortHeader(bs: Bytes)
    requires |bs| >= 3 && bs[0] < 128 && bs[1] < 128 && bs[2] < 128
    ensures Header(bs, bs[0], bs[1], bs[2], 3)
  {
    hide Parses32;
    OneDigit(bs);
    OneDigit(bs[1..]);
    OneDigit(bs[2..]);
    assert HeaderAt(bs, bs[0], bs[1], bs[2], 1, 2, 3);
  }

  /** No header if a varint is missing. */
  lemma NoHeader(bs: Bytes, a: Word, i: nat, b: Word, j: nat)
    requires i <= j <= |bs| && (i > 0 ==> Parses32(bs, a, i)) && (j > i ==> i > 0 && Parses32(bs[i..], b, j - i))
    requires forall v: Word, n: nat :: !Parses32(bs[j..], v, n)
    ensures forall a, b, c, n: nat :: !Header(bs, a, b, c, n)
  {
    hide Parses32;
    assert bs[0..] == bs;
    forall a', b', c', n: nat, i': nat, j': nat | HeaderAt(bs, a', b', c', i', j', n) ensures false {
      if i > 0 {
        Parses32Once(bs, a, i, a', i');
        if j > i {
          Parses32Once(bs[i..], b, j - i, b', j' - i');
        }
      }
    }
  }

  /** DecodeEntry: the three lengths, and where the key delta starts. The lengths are tested
      against what is left by their sum in 32 bits: so what passes stays within the block
      exactly if the sum does not wrap. */
  method DecodeEntry(data: Bytes, p: nat, limit: nat) returns (ok: bool, shared: Word, nonShared: Word, valueLength: Word, next: nat)
    requires p <= limit <= |data| && limit < 0x1_0000_0000
    ensures ok ==>
      && p + 3 <= next <= limit && Header(data[p..limit], shared, nonShared, valueLength, next - p)
      && Sum32(nonShared, valueLength) <= limit - next
      && (next + nonShared + valueLength <= limit <==> nonShared + valueLength < 0x1_0000_0000)
    ensures !ok ==> forall a, b, c, n: nat :: Header(data[p..limit], a, b, c, n) ==> Sum32(b, c) > limit - p - n
  {
    hide Parses32, Sum32;
    ghost var bs := data[p..limit];
    ok, shared, nonShared, valueLength, next := false, 0, 0, 0, p;
    if limit - p < 3 {
      return;
    }
    assert bs[0] == data[p] && bs[1] == data[p + 1] && bs[2] == data[p + 2];
    if data[p] < 128 && data[p + 1] < 128 && data[p + 2] < 128 {
      ShortHeader(bs);
      shared, nonShared, valueLength, next := data[p], data[p + 1], data[p + 2], p + 3;
    } else {
      ok, shared, nonShared, valueLength, next := ThreeVarints(data, p, limit);
      if !ok {
        return;
      }
    }
    ok := limit - next >= Sum32(nonShared, valueLength);
    Tested(limit - next, nonShared, valueLength);
    OtherHeaders(bs, shared, nonShared, valueLength, next - p);
  }

  lemma Tested(left: Word, b: Word, c: Word)
    ensures Sum32(b, c) <= left ==> (b + c <= left <==> b + c < 0x1_0000_0000)
  {
  }

  lemma OtherHeaders(bs: Bytes, a: Word, b: Word, c: Word, n: nat)
    requires Header(bs, a, b, c, n)
    ensures forall a', b', c', n': nat :: Header(bs, a', b', c', n') ==> a' == a && b' == b && c' == c && n' == n
  {
    forall a', b', c', n': nat | Header(bs, a', b', c', n') ensures a' == a && b' == b && c' == c && n' == n {
      HeaderOnce(bs, a, b, c, n, a', b', c', n');
    }
  }

  method ThreeVarints(data: Bytes, p: nat, limit: nat) returns (ok: bool, shared: Word, nonShared: Word, valueLength: Word, next: nat)
    requires p <= limit <= |data|
    ensures ok ==> p + 3 <= next <= limit && Header(data[p..limit], shared, nonShared, valueLength, next - p)
    ensures !ok ==> forall a, b, c, n: nat :: !Header(data[p..limit], a, b, c, n)
  {
    hide Parses32, Header;
    ghost var bs := data[p..limit];
    shared, nonShared, valueLength := 0, 0, 0;
    ok, shared, next := GetVarint32(data, p, limit);
    if !ok {
      assert bs[0..] == bs;
      NoHeader(bs, 0, 0, 0, 0);
      return;
    }
    ghost var i := next - p;
    assert data[next..limit] == bs[i..];
    ok, nonShared, next := GetVarint32(data, next, limit);
    if !ok {
      NoHeader(bs, shared, i, 0, i);
      return;
    }
    ghost var j := next - p;
    assert data[next..limit] == bs[j..];
    ok, valueLength, next := GetVarint32(data, next, limit);
    if !ok {
      NoHeader(bs, shared, i, nonShared, j);
    } else {
      IsHeader(bs, shared, nonShared, valueLength, i, j, next - p);
    }
  }

  lemma IsHeader(bs: Bytes, a: Word, b: Word, c: Word, i: nat, j: nat, n: nat)
    requires HeaderAt(bs, a, b, c, i, j, n)
    ensures Header(bs, a, b, c, n)
  {
  }

  /** The first entry of these bytes gives a key: the start of the key before and what
      follows, and a value, all of it within the bytes. */
  ghost predicate Entry(bs: Bytes, before: Bytes, key: Bytes, value: Bytes, size: nat) {
    exists a, b, c, n: nat :: EntryWith(bs, before, key, value, size, a, b, c, n)
  }

  ghost predicate EntryWith(bs: Bytes, before: Bytes, key: Bytes, value: Bytes, size: nat, a: Word, b: Word, c: Word, n: nat) {
    && Header(bs, a, b, c, n) && a <= |before| && n + b + c == size <= |bs|
    && key == before[..a] + bs[n..n + b] && value == bs[n + b..size]
  }

  /** The entry passes the test, and its lengths reach past the bytes. */
  ghost predicate Wild(bs: Bytes, before: Bytes) {
    exists a, b, c, n: nat :: WildWith(bs, before, a, b, c, n)
  }

  ghost predicate WildWith(bs: Bytes, before: Bytes, a: Word, b: Word, c: Word, n: nat) {
    Header(bs, a, b, c, n) && n <= |bs| && a <= |before| && Sum32(b, c) <= |bs| - n && b + c > |bs| - n
  }

  /** What is found at the start of these bytes: one entry, a wild one, or neither. */
  lemma EntryOrWild(bs: Bytes, before: Bytes, a: Word, b: Word, c: Word, n: nat)
    requires |bs| < 0x1_0000_0000 && Header(bs, a, b, c, n) && n <= |bs|
    ensures Sum32(b, c) > |bs| - n || a > |before| ==> !Wild(bs, before) && forall k, v, size: nat :: !Entry(bs, before, k, v, size)
    ensures Sum32(b, c) <= |bs| - n && a <= |before| && n + b + c <= |bs| ==>
              !Wild(bs, before) && Entry(bs, before, before[..a] + bs[n..n + b], bs[n + b..n + b + c], n + b + c)
    ensures Sum32(b, c) <= |bs| - n && a <= |before| && n + b + c > |bs| ==>
              Wild(bs, before) && forall k, v, size: nat :: !Entry(bs, before, k, v, size)
  {
    hide Header;
    OtherHeaders(bs, a, b, c, n);
    if Sum32(b, c) <= |bs| - n && a <= |before| {
      if n + b + c <= |bs| {
        assert EntryWith(bs, before, before[..a] + bs[n..n + b], bs[n + b..n + b + c], n + b + c, a, b, c, n);
      } else {
        assert WildWith(bs, before, a, b, c, n);
      }
    }
  }

  /** A row's own bytes are its entry, and no other. */
  lemma RowEntry(bs: Bytes, before: Bytes, r: Row, s: nat)
    requires s <= |r.key| && Fits(r) && Piece(r, s) <= bs && |bs| < 0x1_0000_0000
    requires s <= |before| && before[..s] + r.key[s..] == r.key
    ensures !Wild(bs, before) && Entry(bs, before, r.key, r.value, |Piece(r, s)|)
    ensures forall k, v, size: nat :: Entry(bs, before, k, v, size) ==> k == r.key && v == r.value && size == |Piece(r, s)|
  {
    hide Header, Lengths, Sum32, Wild;
    var n, b, c := |Lengths(r, s)|, |r.key| - s, |r.value|;
    PieceHeader(r, s, bs);
    OtherHeaders(bs, s, b, c, n);
    EntryParts(bs, 0, |bs|, Lengths(r, s), r.key[s..], r.value);
    Tested(|bs| - n, b, c);
    SumBelow(|bs| - n, b, c);
    EntryOrWild(bs, before, s, b, c, n);
  }

  lemma SumBelow(left: Word, b: Word, c: Word)
    requires b + c <= left
    ensures Sum32(b, c) <= left
  {
  }

  lemma NoEntry(bs: Bytes, before: Bytes)
    requires forall a, b, c, n: nat :: Header(bs, a, b, c, n) ==> Sum32(b, c) > |bs| - n
    ensures !Wild(bs, before) && forall k, v, size: nat :: !Entry(bs, before, k, v, size)
  {
    hide Header;
  }

  /** Lengths 2^32 - 1 and 1 with nothing left: the sum wraps to 0, and the entry passes. */
  lemma WildEntryExists(before: Bytes)
    ensures Wild([0x00, 0xFF, 0xFF, 0xFF, 0xFF, 0x0F, 0x01], before)
  {
    hide Parses32, Encoded, Shift;
    var bs: Bytes := [0x00, 0xFF, 0xFF, 0xFF, 0xFF, 0x0F, 0x01];
    OneDigit(bs);
    FiveDigits(bs[1..]);
    OneDigit(bs[6..]);
    assert HeaderAt(bs, 0, 0xFFFF_FFFF, 1, 1, 6, 7);
    assert WildWith(bs, before, 0, 0xFFFF_FFFF, 1, 7);
  }

  lemma FiveDigits(bs: Bytes)
    requires bs == [0xFF, 0xFF, 0xFF, 0xFF, 0x0F, 0x01]
    ensures Parses32(bs, 0xFFFF_FFFF, 5)
  {
    assert Shift(0) == 1 && Shift(1) == 128 && Shift(2) == 0x4000 && Shift(3) == 0x20_0000 && Shift(4) == 0x1000_0000;
    assert Encoded(bs, 1) == 127;
    assert Encoded(bs, 3) == 0x1F_FFFF;
    assert Encoded(bs, 5) == 0xFFFF_FFFF;
  }

  // ----- the iterator -----

  ghost predicate AllFit(lay: Layout) {
    forall r :: r in lay.rows ==> Fits(r)
  }

  ghost predicate SortedRows(lay: Layout, rank: Rank) {
    forall i, j :: 0 <= i < j < |lay.rows| ==> rank(lay.rows[i].key) < rank(lay.rows[j].key)
  }

  /** Rebuilding a key from the row before, or from nothing at a restart point. */
  lemma RebuildsKey(lay: Layout, i: nat, before: Bytes)
    requires GoodLayout(lay) && i < |lay.rows|
    requires lay.shares[i] == 0 || (i > 0 && before == lay.rows[i - 1].key)
    ensures lay.shares[i] <= |before| && lay.shares[i] <= |lay.rows[i].key|
    ensures before[..lay.shares[i]] + lay.rows[i].key[lay.shares[i]..] == lay.rows[i].key
  {
    assert GoodShare(lay, i);
  }

  class Iter {
    const rank: Rank
    const data: Bytes
    /** Offset and length of the restart array. */
    const restarts: nat
    const numRestarts: nat
    ghost const lay: Layout
    var current: nat
    var restartIndex: nat
    var key: Bytes
    var value: Bytes
    /** Where value_ ends. */
    var nextOffset: nat
    var corrupt: bool
    /** An entry reached past the block; what the program does then is undefined. */
    var wild: bool

    ghost predicate Valid()
      reads this
    {
      && Framed()
      && (current < restarts ==> restartIndex < numRestarts)
    }

    predicate Framed() {
      numRestarts > 0 && restarts < 0x1_0000_0000 && restarts + 4 * numRestarts <= |data|
    }

    function GetRestartPoint(index: nat): nat
      requires Framed() && index < numRestarts
    {
      DecodeFixed32(data[restarts + 4 * index..])
    }

    /** The block holds the rows of `lay`. */
    ghost predicate Sound() {
      && Framed() && GoodLayout(lay) && AllFit(lay)
      && data[..restarts] == Data(lay, |lay.rows|)
      && numRestarts == |lay.points|
      && forall k :: 0 <= k < |lay.points| && lay.points[k] <= |lay.rows| ==> GetRestartPoint(k) == Off(lay, lay.points[k])
    }

    /** The iterator stands at row `pos`, or past the end. */
    ghost predicate At(pos: nat)
      requires Valid() && Sound()
      reads this
    {
      && pos <= |lay.rows| && !corrupt && !wild
      && if pos == |lay.rows| then current == restarts
         else
           && Ready(pos + 1)
           && current == Off(lay, pos) && value == lay.rows[pos].value && key == lay.rows[pos].key
           && restartIndex < numRestarts && lay.points[restartIndex] <= pos
           && (restartIndex + 1 < numRestarts ==> lay.points[restartIndex + 1] >= pos)
    }

    /** The next row to parse is row `pos`. */
    ghost predicate Ready(pos: nat)
      requires Valid() && Sound()
      reads this
    {
      && pos <= |lay.rows| && nextOffset == Off(lay, pos)
    }

    constructor (rank: Rank, data: Bytes, restarts: nat, numRestarts: nat, ghost lay: Layout)
      requires numRestarts > 0 && restarts < 0x1_0000_0000 && restarts + 4 * numRestarts <= |data|
      ensures Valid() && this.rank == rank && this.data == data && this.restarts == restarts
      ensures this.numRestarts == numRestarts && this.lay == lay && current == restarts && !corrupt && !wild
    {
      this.rank, this.data, this.restarts, this.numRestarts, this.lay := rank, data, restarts, numRestarts, lay;
      current, restartIndex, key, value, nextOffset, corrupt, wild := restarts, numRestarts, [], [], 0, false, false;
    }

    method CorruptionError()
      requires Valid()
      modifies this
      ensures Valid() && current == restarts && corrupt && wild == old(wild) && nextOffset == old(nextOffset)
    {
      current, restartIndex := restarts, numRestarts;
      corrupt := true;
      key, value := [], [];
    }

    /** The end of the model: the bytes beyond the block are not part of it. */
    method ReachPastBlock()
      requires Valid()
      modifies this
      ensures Valid() && current == restarts && wild && corrupt == old(corrupt) && nextOffset == old(nextOffset)
    {
      current, restartIndex := restarts, numRestarts;
      wild := true;
    }

    method SeekToRestartPoint(index: nat)
      requires Valid() && index < numRestarts
      modifies this
      ensures Valid() && restartIndex == index && key == [] && corrupt == old(corrupt) && wild == old(wild)
      ensures nextOffset == GetRestartPoint(index)
    {
      key := [];
      restartIndex := index;
      value := [];
      nextOffset := GetRestartPoint(index);
    }

    /** Row `pos` comes next, and can be rebuilt. */
    ghost predicate CanParse(pos: nat)
      requires Valid()
      reads this
    {
      && Sound() && !corrupt && !wild && Ready(pos)
      && restartIndex < numRestarts && lay.points[restartIndex] <= pos
      && (pos < |lay.rows| ==> lay.shares[pos] == 0 || (pos > 0 && key == lay.rows[pos - 1].key))
    }

    lemma OffLess(i: nat, j: nat)
      requires Sound() && i <= |lay.rows| && j <= |lay.rows|
      ensures Off(lay, i) < Off(lay, j) <==> i < j
      ensures Off(lay, i) == Off(lay, j) <==> i == j
      ensures Off(lay, |lay.rows|) == restarts && Off(lay, i) <= restarts
    {
      if i <= j {
        OffsetsGrow(lay, i, j);
      } else {
        OffsetsGrow(lay, j, i);
      }
      OffsetsGrow(lay, i, |lay.rows|);
    }

    /** What the entry at a sound offset decodes to. */
    lemma EntryAt(pos: nat)
      requires Sound() && pos < |lay.rows|
      ensures |lay.shares| == |lay.rows| && GoodShare(lay, pos) && Fits(lay.rows[pos])
      ensures Off(lay, pos) < restarts && Piece(lay.rows[pos], lay.shares[pos]) <= data[Off(lay, pos)..restarts]
      ensures Off(lay, pos + 1) == Off(lay, pos) + |Piece(lay.rows[pos], lay.shares[pos])| <= restarts
      ensures
        var r, s := lay.rows[pos], lay.shares[pos];
        var p := Off(lay, pos) + |Lengths(r, s)|;
        var delta := p + (|r.key| - s);
        && delta + |r.value| == Off(lay, pos + 1)
        && data[p..delta] == r.key[s..] && data[delta..Off(lay, pos + 1)] == r.value
    {
      hide Data, Varint;
      PieceAt(lay, pos);
      var d := data[..restarts];
      assert d[Off(lay, pos)..] == data[Off(lay, pos)..restarts];
      var r, s := lay.rows[pos], lay.shares[pos];
      EntryParts(data, Off(lay, pos), restarts, Lengths(r, s), r.key[s..], r.value);
    }

    lemma PointLess(k: nat, pos: nat)
      requires Sound() && k < numRestarts && pos <= |lay.rows|
      ensures k < |lay.points|
      ensures GetRestartPoint(k) < Off(lay, pos) <==> lay.points[k] < pos
      ensures GetRestartPoint(k) == Off(lay, lay.points[k])
    {
      OffLess(lay.points[k], pos);
    }

    /** The restart index follows the current entry, stopping short of an entry that is a
        restart point itself. */
    method AdvanceRestart(ghost pos: nat)
      requires Framed() && restartIndex < numRestarts
      modifies this`restartIndex
      ensures restartIndex < numRestarts
      ensures Sound() && pos <= |lay.rows| && current == Off(lay, pos) && lay.points[old(restartIndex)] <= pos ==>
        lay.points[restartIndex] <= pos && (restartIndex + 1 < numRestarts ==> lay.points[restartIndex + 1] >= pos)
    {
      hide Off, GoodLayout, AllFit, Data, DecodeFixed32;
      ghost var good := Sound() && pos <= |lay.rows| && current == Off(lay, pos) && lay.points[restartIndex] <= pos;
      while restartIndex + 1 < numRestarts && GetRestartPoint(restartIndex + 1) < current
        invariant restartIndex < numRestarts
        invariant good ==> lay.points[restartIndex] <= pos
        decreases numRestarts - restartIndex
      {
        if good {
          PointLess(restartIndex + 1, pos);
        }
        restartIndex := restartIndex + 1;
      }
      if good && restartIndex + 1 < numRestarts {
        PointLess(restartIndex + 1, pos);
      }
    }

    /** The entry at the current offset: a key and a value, or the end of the iteration, as
        corrupt or because the entry reaches past the block. */
    method ParseEntry() returns (more: bool)
      requires Valid() && restartIndex < numRestarts && nextOffset < restarts
      modifies this
      ensures Valid() && Parsed(old(nextOffset), old(key), old(wild), old(corrupt), more)
      ensures more ==> current == old(nextOffset) && restartIndex == old(restartIndex)
    {
      hide Header, Sum32, Entry, Wild, DecodeFixed32;
      current := nextOffset;
      ghost var bs := data[current..restarts];
      var ok, shared, nonShared, valueLength, p := DecodeEntry(data, current, restarts);
      if ok {
        EntryOrWild(bs, key, shared, nonShared, valueLength, p - current);
      } else {
        NoEntry(bs, key);
      }
      if !ok || |key| < shared {
        CorruptionError();
        return false;
      }
      if p + nonShared + valueLength > restarts {
        ReachPastBlock();
        return false;
      }
      SliceOfSlice(data, current, restarts, p - current, p - current + nonShared);
      SliceOfSlice(data, current, restarts, p - current + nonShared, p - current + nonShared + valueLength);
      key := key[..shared] + data[p..p + nonShared];
      value := data[p + nonShared..p + nonShared + valueLength];
      nextOffset := p + nonShared + valueLength;
      more := true;
    }

    /** What becomes of the iterator at the entry at `start`, after the key `before`. */
    ghost predicate Parsed(start: nat, before: Bytes, wasWild: bool, wasCorrupt: bool, more: bool)
      requires Framed() && start < restarts
      reads this
    {
      var bs := data[start..restarts];
      && (more ==> start < nextOffset <= restarts && Entry(bs, before, key, value, nextOffset - start))
      && (!more ==> current == restarts && nextOffset == start && forall k, v, size: nat :: !Entry(bs, before, k, v, size))
      && (wild <==> wasWild || Wild(bs, before))
      && (corrupt <==> wasCorrupt || !(more || Wild(bs, before)))
    }

    method ParseNextKey(ghost pos: nat) returns (more: bool)
      requires Valid() && restartIndex < numRestarts
      modifies this
      ensures Valid() && (more ==> current == old(nextOffset) < nextOffset <= restarts && restartIndex < numRestarts)
      ensures !more ==> nextOffset == old(nextOffset)
      ensures old(nextOffset) < restarts ==> Parsed(old(nextOffset), old(key), old(wild), old(corrupt), more)
      ensures old(nextOffset) >= restarts ==>
        !more && current == restarts && wild == old(wild) && corrupt == old(corrupt)
      ensures old(CanParse(pos)) ==> At(pos) && more == (pos < |lay.rows|)
    {
      hide Off, Lengths, Varint, GoodShare, GoodLayout, Data, AllFit, DecodeFixed32, Piece, GetRestartPoint;
      hide Sound, CanParse, At, Entry, Wild;
      ghost var good, before, start := CanParse(pos), key, nextOffset;
      ghost var r, s := Row([], []), 0;
      if good {
        r, s := Parsing(pos);
      }
      if nextOffset >= restarts {
        current, restartIndex := restarts, numRestarts;
        if good {
          AtEnd();
        }
        return false;
      }
      if good {
        RowEntry(data[start..restarts], before, r, s);
      }
      more := ParseEntry();
      if more {
        AdvanceRestart(pos);
        if good {
          AtParsed(pos);
        }
      }
    }

    /** What lies ahead when row `pos` can be parsed. */
    lemma Parsing(pos: nat) returns (r: Row, s: nat)
      requires Valid() && CanParse(pos)
      ensures Sound() && pos <= |lay.rows| && !corrupt && !wild && nextOffset == Off(lay, pos) <= restarts
      ensures nextOffset < restarts <==> pos < |lay.rows|
      ensures restartIndex < |lay.points| && lay.points[restartIndex] <= pos
      ensures pos < |lay.rows| ==>
        && r == lay.rows[pos] && s <= |r.key| && s <= |key| && Fits(r)
        && Piece(r, s) <= data[nextOffset..restarts] && key[..s] + r.key[s..] == r.key
        && nextOffset + |Piece(r, s)| == Off(lay, pos + 1)
    {
      hide Off, Data, Lengths, Varint, GoodShare, AllFit, DecodeFixed32;
      OffLess(pos, |lay.rows|);
      r, s := Row([], []), 0;
      if pos < |lay.rows| {
        EntryAt(pos);
        RebuildsKey(lay, pos, key);
        r, s := lay.rows[pos], lay.shares[pos];
      }
    }

    lemma AtParsed(pos: nat)
      requires Valid() && Sound() && !corrupt && !wild && pos < |lay.rows| && current == Off(lay, pos) && nextOffset == Off(lay, pos + 1)
      requires key == lay.rows[pos].key && value == lay.rows[pos].value
      requires restartIndex < numRestarts && lay.points[restartIndex] <= pos
      requires restartIndex + 1 < numRestarts ==> lay.points[restartIndex + 1] >= pos
      ensures At(pos)
    {
    }

    lemma AtRow(pos: nat)
      requires Valid() && Sound() && pos < |lay.rows| && At(pos)
      ensures CanParse(pos + 1) && !corrupt && !wild
      ensures current == Off(lay, pos) < restarts && nextOffset == Off(lay, pos + 1)
      ensures nextOffset < restarts <==> pos + 1 < |lay.rows|
      ensures restartIndex < numRestarts == |lay.points| && lay.points[restartIndex] <= pos
      ensures key == lay.rows[pos].key && value == lay.rows[pos].value
    {
      hide Off, Data, GoodShare, AllFit, DecodeFixed32;
      OffLess(pos, |lay.rows|);
      OffLess(pos + 1, |lay.rows|);
    }

    /** Where the iterator stands decides whether it is past the end. */
    lemma AtOffset(pos: nat)
      requires Valid() && Sound() && pos <= |lay.rows| && At(pos)
      ensures current < restarts <==> pos < |lay.rows|
    {
      OffLess(pos, |lay.rows|);
    }

    method Next(ghost pos: nat)
      requires Valid() && current < restarts
      modifies this
      ensures Valid()
      ensures Sound() && pos < |lay.rows| && old(At(pos)) ==> At(pos + 1)
    {
      var more := ParseNextKey(pos + 1);
    }

    /** A restart point's row needs nothing before it. */
    lemma ParsesAtPoint(k: nat)
      requires Valid() && Sound() && !corrupt && !wild && k < numRestarts && restartIndex == k && nextOffset == GetRestartPoint(k)
      ensures k < |lay.points| && (lay.points[k] < |lay.rows| || (lay.points[k] == 0 && lay.rows == []))
      ensures CanParse(lay.points[k])
    {
    }

    method SeekToFirst()
      requires Valid()
      modifies this
      ensures Valid()
      ensures Sound() && !old(corrupt) && !old(wild) ==> At(0)
    {
      SeekToRestartPoint(0);
      if Sound() && !corrupt && !wild {
        ParsesAtPoint(0);
      }
      var more := ParseNextKey(0);
    }

    method SeekToLast()
      requires Valid()
      modifies this
      ensures Valid()
      ensures Sound() && !old(corrupt) && !old(wild) ==> At(if lay.rows == [] then 0 else |lay.rows| - 1)
    {
      hide At, CanParse, Sound, Off, Parsed, Header, Sum32, Lengths;
      SeekToRestartPoint(numRestarts - 1);
      ghost var good := Sound() && !corrupt && !wild;
      ghost var pos: nat := 0;
      if good {
        ParsesAtPoint(numRestarts - 1);
        pos := lay.points[numRestarts - 1];
      }
      var more := ParseNextKey(pos);
      if good && more {
        AtRow(pos);
      }
      while more && nextOffset < restarts
        invariant Valid() && (more ==> current < nextOffset <= restarts && restartIndex < numRestarts)
        invariant good ==> pos <= |lay.rows| && At(pos) && (pos < |lay.rows| ==> more && CanParse(pos + 1))
        invariant good && pos < |lay.rows| ==> (nextOffset < restarts <==> pos + 1 < |lay.rows|)
        invariant good && pos == |lay.rows| ==> pos == 0 && !more
        decreases restarts - nextOffset, more
      {
        pos := pos + 1;
        more := ParseNextKey(pos);
        if good && more {
          AtRow(pos);
        }
      }
    }

    /** The immediate predecessor, or past the end from the first row. */
    method Prev(ghost pos: nat)
      requires Valid() && current < restarts
      modifies this
      ensures Valid()
      ensures Sound() && pos < |lay.rows| && old(At(pos)) ==> At(if pos == 0 then |lay.rows| else pos - 1)
    {
      hide At, CanParse, Sound, Off, Parsed, Header, Sum32, Lengths;
      var original := current;
      ghost var good := Sound() && pos < |lay.rows| && At(pos);
      if good {
        AtRow(pos);
      }
      while GetRestartPoint(restartIndex) >= original
        invariant Valid() && restartIndex < numRestarts && current == original
        invariant good ==> numRestarts == |lay.points| && !corrupt && !wild
        decreases restartIndex
      {
        if restartIndex == 0 {
          if good {
            PastEnd(pos);
          }
          current, restartIndex := restarts, numRestarts;
          if good {
            AtEnd();
          }
          return;
        }
        restartIndex := restartIndex - 1;
      }
      SeekToRestartPoint(restartIndex);
      ghost var p: nat := 0;
      if good {
        ParsesAtPoint(restartIndex);
        PointLess(restartIndex, pos);
        p := lay.points[restartIndex];
      }
      ScanUpTo(original, p, pos);
    }

    /** Rows from `p` on, until the end of one is where the row at `pos` starts. */
    method ScanUpTo(original: nat, ghost start: nat, ghost pos: nat)
      requires Valid() && restartIndex < numRestarts
      modifies this
      ensures Valid()
      ensures old(CanParse(start)) && start < pos && StartsAt(pos, original) ==> At(pos - 1)
    {
      hide At, CanParse, Sound, Off, Parsed;
      ghost var p: nat := start;
      ghost var good := CanParse(start) && start < pos && StartsAt(pos, original);
      var more := ParseNextKey(p);
      if good {
        AtRow(p);
        OffLess(p + 1, pos);
      }
      while more && nextOffset < original
        invariant Valid() && (more ==> current < nextOffset <= restarts && restartIndex < numRestarts)
        invariant good ==> p < pos && At(p) && more && CanParse(p + 1)
        invariant good ==> (nextOffset < original <==> p + 1 < pos) && (nextOffset == original <==> p + 1 == pos)
        decreases restarts - nextOffset, more
      {
        p := p + 1;
        more := ParseNextKey(p);
        if good {
          AtRow(p);
          OffLess(p + 1, pos);
        }
      }
    }

    ghost predicate StartsAt(pos: nat, offset: nat) {
      Sound() && pos <= |lay.rows| && offset == Off(lay, pos)
    }

    lemma AtEnd()
      requires Valid() && Sound() && !corrupt && !wild && current == restarts
      ensures At(|lay.rows|)
    {
    }

    lemma PastEnd(pos: nat)
      requires Sound() && pos <= |lay.rows| && GetRestartPoint(0) >= Off(lay, pos)
      ensures pos == 0
    {
      PointLess(0, pos);
    }

    /** Position of the first row at or after a target. */
    ghost predicate Lands(target: Bytes, pos: nat) {
      && pos <= |lay.rows|
      && (forall i :: 0 <= i < pos ==> rank(lay.rows[i].key) < rank(target))
      && (pos < |lay.rows| ==> rank(lay.rows[pos].key) >= rank(target))
    }

    /** The last restart point whose key is below the target, or the first one. */
    method Bisect(target: Bytes) returns (ok: bool, left: nat)
      requires Valid()
      modifies this
      ensures Valid() && left < numRestarts
      ensures ok ==> corrupt == old(corrupt) && wild == old(wild)
      ensures Sound() && SortedRows(lay, rank) ==> ok && (left == 0 || PointBelow(left, target))
    {
      hide Sound, Off, SortedRows, Header, Sum32, Lengths;
      ok, left := true, 0;
      ghost var good := Sound() && SortedRows(lay, rank);
      var right := numRestarts - 1;
      while left < right
        invariant left <= right < numRestarts && Valid() && ok && corrupt == old(corrupt) && wild == old(wild)
        invariant good ==> left == 0 || PointBelow(left, target)
      {
        var mid := (left + right + 1) / 2;
        var region := GetRestartPoint(mid);
        if good {
          PointEntry(mid);
        }
        if region > restarts {
          CorruptionError();
          return false, 0;
        }
        var decoded, shared, nonShared, valueLength, p := DecodeEntry(data, region, restarts);
        if !decoded || shared != 0 {
          CorruptionError();
          return false, 0;
        }
        if p + nonShared > restarts {
          ReachPastBlock();
          return false, 0;
        }
        var midKey := data[p..p + nonShared];
        if rank(midKey) < rank(target) {
          left := mid;
        } else {
          right := mid - 1;
        }
      }
    }

    /** Binary search over the restart points, then a scan: lands where a scan of the whole
        block would. */
    method Seek(target: Bytes) returns (ghost pos: nat)
      requires Valid()
      modifies this
      ensures Valid()
      ensures Sound() && SortedRows(lay, rank) && !old(corrupt) && !old(wild) ==> Lands(target, pos) && At(pos)
    {
      hide At, CanParse, Sound, Off, SortedRows, Parsed;
      ghost var good := Sound() && SortedRows(lay, rank) && !corrupt && !wild;
      pos := 0;
      var ok, left := Bisect(target);
      if !ok {
        return;
      }
      SeekToRestartPoint(left);
      if good {
        ParsesAtPoint(left);
        pos := lay.points[left];
        AllBelowPoint(left, target);
      }
      while true
        invariant Valid() && restartIndex < numRestarts
        invariant good ==> CanParse(pos) && AllBelow(pos, target)
        decreases restarts - nextOffset
      {
        var more := ParseNextKey(pos);
        if !more {
          return;
        }
        if good {
          AtRow(pos);
        }
        if rank(key) >= rank(target) {
          return;
        }
        pos := pos + 1;
      }
    }

    ghost predicate AllBelow(pos: nat, target: Bytes) {
      pos <= |lay.rows| && forall i :: 0 <= i < pos ==> rank(lay.rows[i].key) < rank(target)
    }

    /** The row at restart point `k` is below the target. */
    ghost predicate PointBelow(k: nat, target: Bytes) {
      k < |lay.points| && lay.points[k] < |lay.rows| && rank(lay.rows[lay.points[k]].key) < rank(target)
    }

    lemma AllBelowPoint(k: nat, target: Bytes)
      requires Sound() && SortedRows(lay, rank) && k < numRestarts && (k == 0 || PointBelow(k, target))
      ensures k < |lay.points| && AllBelow(lay.points[k], target)
    {
    }

    /** The entry at a later restart point, as the binary search reads it. */
    lemma PointEntry(k: nat)
      requires Sound() && 0 < k < numRestarts
      ensures k < |lay.points| && lay.points[k] < |lay.rows|
      ensures
        var r := lay.rows[lay.points[k]];
        var p := GetRestartPoint(k);
        && p <= restarts && p + |Lengths(r, 0)| + |r.key| <= restarts && Fits(r)
        && data[p + |Lengths(r, 0)|..p + |Lengths(r, 0)| + |r.key|] == r.key
        && Header(data[p..restarts], 0, |r.key|, |r.value|, |Lengths(r, 0)|)
        && Sum32(|r.key|, |r.value|) <= restarts - p - |Lengths(r, 0)|
        && forall a, b, c, n: nat :: Header(data[p..restarts], a, b, c, n) ==> a == 0 && b == |r.key| && c == |r.value| && n == |Lengths(r, 0)|
    {
      hide Header, Lengths, Varint, Data;
      var i := lay.points[k];
      EntryAt(i);
      var r, bs := lay.rows[i], data[GetRestartPoint(k)..restarts];
      assert r.key[0..] == r.key;
      PieceHeader(r, 0, bs);
      OtherHeaders(bs, 0, |r.key|, |r.value|, |Lengths(r, 0)|);
    }
  }

  lemma SliceOfSlice(bs: Bytes, lo: nat, hi: nat, i: nat, j: nat)
    requires lo <= hi <= |bs| && i <= j <= hi - lo
    ensures bs[lo..hi][i..j] == bs[lo + i..lo + j]
  {
    var a, b := bs[lo..hi][i..j], bs[lo + i..lo + j];
    assert |a| == |b| && forall k :: 0 <= k < j - i ==> a[k] == bs[lo + i + k] == b[k];
  }

  lemma EntryParts(data: Bytes, p: nat, limit: nat, a: Bytes, b: Bytes, c: Bytes)
    requires p <= limit <= |data| && a + (b + c) <= data[p..limit]
    ensures p + |a| + |b| + |c| <= limit
    ensures data[p + |a|..p + |a| + |b|] == b && data[p + |a| + |b|..p + |a| + |b| + |c|] == c
  {
    var bs := data[p..limit];
    TailPrefix(a, b + c, bs);
    TailPrefix(b, c, bs[|a|..]);
    assert bs[|a|..][..|b|] == b && bs[|a|..][|b|..][..|c|] == c;
    assert bs[|a|..][..|b|] == data[p + |a|..p + |a| + |b|];
    assert bs[|a|..][|b|..][..|c|] == data[p + |a| + |b|..p + |a| + |b| + |c|];
  }
}
