/** Building a block, and opening the bytes that were built. */
module BlockBuilder {
  import opened Coding
  import opened Block

  const LIMIT: nat := 0x1_0000_0000

  // ----- layouts that grow -----

  ghost function Extended(lay: Layout, r: Row, shared: nat, restart: bool): Layout {
    Layout(lay.rows + [r], lay.shares + [shared], lay.points + if restart then [|lay.rows|] else [])
  }

  predicate SharesPrefix(a: Bytes, b: Bytes, n: nat) {
    n <= |a| && n <= |b| && a[..n] == b[..n]
  }

  /** Room for one more row, sharing `shared` bytes of its key with the last one. */
  ghost predicate CanExtend(lay: Layout, r: Row, shared: nat, restart: bool) {
    && GoodLayout(lay) && shared <= |r.key|
    && (restart ==> shared == 0 && lay.rows != [])
    && (shared > 0 ==> lay.rows != [] && SharesPrefix(lay.rows[|lay.rows| - 1].key, r.key, shared))
  }

  lemma ExtendedIsGood(lay: Layout, r: Row, shared: nat, restart: bool)
    requires CanExtend(lay, r, shared, restart)
    ensures GoodLayout(Extended(lay, r, shared, restart))
  {
    var next := Extended(lay, r, shared, restart);
    forall i | 0 <= i < |next.rows| ensures GoodShare(next, i) {
      if i < |lay.rows| {
        assert GoodShare(lay, i);
      }
    }
  }

  lemma {:induction false} SameData(lay: Layout, r: Row, shared: nat, restart: bool, n: nat)
    requires CanExtend(lay, r, shared, restart) && n <= |lay.rows|
    ensures GoodLayout(Extended(lay, r, shared, restart))
    ensures Data(Extended(lay, r, shared, restart), n) == Data(lay, n)
  {
    ExtendedIsGood(lay, r, shared, restart);
    if n > 0 {
      SameData(lay, r, shared, restart, n - 1);
      assert GoodShare(lay, n - 1);
    }
  }

  // ----- the restart array -----

  ghost predicate AllWords(rs: seq<nat>) {
    forall k :: 0 <= k < |rs| ==> rs[k] < LIMIT
  }

  function Array(rs: seq<nat>, n: nat): (b: Bytes)
    requires n <= |rs| && AllWords(rs)
    ensures |b| == 4 * n
  {
    if n == 0 then [] else Array(rs, n - 1) + Fixed32(rs[n - 1])
  }

  lemma {:induction false} ArrayAt(rs: seq<nat>, n: nat, k: nat)
    requires k < n <= |rs| && AllWords(rs)
    ensures Fixed32(rs[k]) <= Array(rs, n)[4 * k..]
  {
    if k < n - 1 {
      ArrayAt(rs, n - 1, k);
    }
  }

  /** The bytes of a finished block. */
  ghost predicate Encodes(lay: Layout, b: Bytes) {
    exists rs :: EncodesWith(lay, rs, b)
  }

  ghost predicate EncodesWith(lay: Layout, rs: seq<nat>, b: Bytes) {
    && GoodLayout(lay) && AllFit(lay) && IsOffsets(lay, rs) && |rs| < LIMIT && |Data(lay, |lay.rows|)| < LIMIT
    && b == Data(lay, |lay.rows|) + Array(rs, |rs|) + Fixed32(|rs|)
  }

  ghost predicate IsOffsets(lay: Layout, rs: seq<nat>)
    requires GoodLayout(lay)
  {
    && |rs| == |lay.points| && AllWords(rs)
    && forall k :: 0 <= k < |rs| && lay.points[k] <= |lay.rows| ==> rs[k] == Off(lay, lay.points[k])
  }

  class Builder {
    const rank: Rank
    const interval: nat
    var buffer: Bytes
    var restarts: seq<nat>
    var counter: nat
    var lastKey: Bytes
    var finished: bool
    ghost var lay: Layout

    ghost predicate Valid()
      reads this
    {
      && interval >= 1 && counter <= interval && counter <= |lay.rows|
      && GoodLayout(lay) && AllFit(lay) && SortedRows(lay, rank) && IsOffsets(lay, restarts)
      && lastKey == (if lay.rows == [] then [] else lay.rows[|lay.rows| - 1].key)
      && (!finished ==> buffer == Data(lay, |lay.rows|))
    }

    constructor (rank: Rank, interval: nat)
      requires interval >= 1
      ensures Valid() && !finished && lay.rows == [] && buffer == [] && restarts == [0] && this.rank == rank && this.interval == interval
    {
      this.rank, this.interval := rank, interval;
      buffer, restarts, counter, lastKey, finished := [], [0], 0, [], false;
      lay := Layout([], [], [0]);
    }

    method Add(key: Bytes, value: Bytes)
      requires Valid() && !finished && Fits(Row(key, value)) && |buffer| < LIMIT
      requires forall r :: r in lay.rows ==> rank(r.key) < rank(key)
      modifies this
      ensures Valid() && !finished && lay.rows == old(lay.rows) + [Row(key, value)] && |lay.shares| == |old(lay.shares)| + 1
      ensures old(counter) < interval ==>
        && lay.points == old(lay.points) && counter == old(counter) + 1
        && forall n: nat :: SharesPrefix(old(lastKey), key, n) ==> n <= lay.shares[|lay.shares| - 1]
      ensures old(counter) == interval ==> lay.points == old(lay.points) + [|old(lay.rows)|] && counter == 1
      ensures |restarts| <= |old(restarts)| + 1 && |buffer| <= |old(buffer)| + |key| + |value| + 15
    {
      hide GoodLayout, IsOffsets, AllFit, Data, SortedRows, Piece, Varint, SharesPrefix, CanExtend, Extended, Fits;
      ghost var restart, before, r := counter == interval, buffer, Row(key, value);
      var shared := Share(key);
      CanTake(lay, r, shared, restart, lastKey);
      OneRowMore(lay, r, shared, restart);
      PutEntry(key, value, shared);
      JoinKey(lastKey, key, shared);
      lastKey := lastKey[..shared] + key[shared..];
      counter := counter + 1;
      TakesRow(lay, r, shared, restart, before, restarts);
      StillSorted(lay, r, shared, restart, rank);
      lay := Extended(lay, r, shared, restart);
    }

    /** How much of the last key the next entry shares; every so often none, at a restart point. */
    method Share(key: Bytes) returns (shared: nat)
      requires counter <= interval
      modifies this`restarts, this`counter
      ensures shared <= |key| && SharesPrefix(lastKey, key, shared)
      ensures old(counter) < interval ==>
        && restarts == old(restarts) && counter == old(counter)
        && forall n: nat :: SharesPrefix(lastKey, key, n) ==> n <= shared
      ensures old(counter) == interval ==> shared == 0 && restarts == old(restarts) + [|buffer|] && counter == 0
    {
      shared := 0;
      if counter < interval {
        shared := SharedWith(lastKey, key);
      } else {
        restarts := restarts + [|buffer|];
        counter := 0;
      }
    }

    method Reset()
      requires Valid()
      modifies this
      ensures Valid() && !finished && lay.rows == [] && buffer == [] && restarts == [0]
    {
      hide GoodLayout, AllFit, SortedRows, IsOffsets, Data;
      EmptyLayout(rank);
      buffer, restarts, counter, lastKey, finished := [], [0], 0, [], false;
      lay := Layout([], [], [0]);
    }

    lemma EmptyBuffer()
      requires Valid() && !finished
      ensures buffer == [] <==> lay.rows == []
    {
    }

    lemma IsSorted()
      requires Valid()
      ensures SortedRows(lay, rank)
    {
    }

    function CurrentSizeEstimate(): nat
      reads this
    {
      |buffer| + 4 * |restarts| + 4
    }

    /** The finished block: rows, restart offsets, and how many there are. */
    method Finish() returns (b: Bytes)
      requires Valid() && !finished && |restarts| < LIMIT
      modifies this
      ensures Valid() && finished && lay == old(lay) && (|old(buffer)| < LIMIT ==> Encodes(lay, b))
      ensures |b| == |old(buffer)| + 4 * |old(restarts)| + 4
    {
      hide GoodLayout, Data, SortedRows, AllFit, Fixed32;
      ghost var data := buffer;
      assert AllWords(restarts);
      for i := 0 to |restarts|
        invariant lay == old(lay) && restarts == old(restarts) && AllWords(restarts)
        invariant buffer == data + Array(restarts, i)
        modifies this`buffer
      {
        buffer := buffer + Fixed32(restarts[i]);
      }
      buffer := buffer + Fixed32(|restarts|);
      finished := true;
      b := buffer;
      assert |data| < LIMIT ==> EncodesWith(lay, restarts, b);
    }

    method PutEntry(key: Bytes, value: Bytes, shared: nat)
      requires shared <= |key| && Fits(Row(key, value))
      modifies this`buffer
      ensures buffer == old(buffer) + Piece(Row(key, value), shared)
      ensures |buffer| <= |old(buffer)| + |key| + |value| + 15
    {
      hide Varint;
      var nonShared := |key| - shared;
      var a := EncodeVarint32(shared);
      var b := EncodeVarint32(nonShared);
      var c := EncodeVarint32(|value|);
      Appended(buffer, Row(key, value), shared, a, b, c);
      buffer := buffer + a + b + c;
      buffer := buffer + key[shared..];
      buffer := buffer + value;
    }
  }

  lemma JoinKey(last: Bytes, key: Bytes, n: nat)
    requires SharesPrefix(last, key, n)
    ensures last[..n] + key[n..] == key
  {
  }

  lemma StillSorted(lay: Layout, r: Row, shared: nat, restart: bool, rank: Rank)
    requires SortedRows(lay, rank) && forall q :: q in lay.rows ==> rank(q.key) < rank(r.key)
    ensures SortedRows(Extended(lay, r, shared, restart), rank)
  {
  }

  lemma Appended(before: Bytes, r: Row, shared: nat, a: Bytes, b: Bytes, c: Bytes)
    requires shared <= |r.key| && a == Varint(shared) && b == Varint(|r.key| - shared) && c == Varint(|r.value|)
    ensures before + a + b + c + r.key[shared..] + r.value == before + Piece(r, shared)
  {
    hide Varint;
  }

  lemma PrefixAt(a: Bytes, b: Bytes, n: nat, m: nat)
    requires SharesPrefix(a, b, n) && m < n
    ensures m < |a| && m < |b| && a[m] == b[m]
  {
    assert a[..n][m] == b[..n][m];
  }

  method SharedWith(lastKey: Bytes, key: Bytes) returns (shared: nat)
    ensures SharesPrefix(lastKey, key, shared)
    ensures forall n: nat :: SharesPrefix(lastKey, key, n) ==> n <= shared
  {
    shared := 0;
    var minLength := if |lastKey| < |key| then |lastKey| else |key|;
    while shared < minLength && lastKey[shared] == key[shared]
      invariant shared <= minLength && lastKey[..shared] == key[..shared]
    {
      shared := shared + 1;
    }
    forall n: nat | SharesPrefix(lastKey, key, n) ensures n <= shared {
      if shared < n {
        PrefixAt(lastKey, key, n, shared);
      }
    }
  }

  lemma CanTake(lay: Layout, r: Row, shared: nat, restart: bool, last: Bytes)
    requires GoodLayout(lay) && last == (if lay.rows == [] then [] else lay.rows[|lay.rows| - 1].key)
    requires SharesPrefix(last, r.key, shared) && (restart ==> shared == 0 && lay.rows != [])
    ensures CanExtend(lay, r, shared, restart)
  {
  }

  lemma OneRowMore(lay: Layout, r: Row, shared: nat, restart: bool)
    ensures
      var next := Extended(lay, r, shared, restart);
      && next.rows == lay.rows + [r] && next.shares == lay.shares + [shared]
      && next.points == lay.points + if restart then [|lay.rows|] else []
  {
  }

  lemma EmptyLayout(rank: Rank)
    ensures
      var lay := Layout([], [], [0]);
      GoodLayout(lay) && AllFit(lay) && SortedRows(lay, rank) && IsOffsets(lay, [0]) && Data(lay, 0) == []
  {
  }

  lemma TakesRow(lay: Layout, r: Row, shared: nat, restart: bool, before: Bytes, restarts: seq<nat>)
    requires CanExtend(lay, r, shared, restart) && AllFit(lay) && Fits(r) && before == Data(lay, |lay.rows|) && |before| < LIMIT
    requires if restart then restarts != [] && restarts[|restarts| - 1] == |before| && IsOffsets(lay, restarts[..|restarts| - 1]) else IsOffsets(lay, restarts)
    ensures
      var next := Extended(lay, r, shared, restart);
      && GoodLayout(next) && AllFit(next) && IsOffsets(next, restarts)
      && Data(next, |next.rows|) == before + Piece(r, shared)
  {
    hide GoodLayout, AllFit, IsOffsets, Data, Piece, Fits;
    ExtendedIsGood(lay, r, shared, restart);
    OneMorePiece(lay, r, shared, restart);
    OneMoreFits(lay, r, shared, restart);
    OffsetsExtend(lay, r, shared, restart, restarts);
  }

  lemma OneMorePiece(lay: Layout, r: Row, shared: nat, restart: bool)
    requires CanExtend(lay, r, shared, restart)
    ensures
      var next := Extended(lay, r, shared, restart);
      GoodLayout(next) && Data(next, |next.rows|) == Data(lay, |lay.rows|) + Piece(r, shared)
  {
    var next := Extended(lay, r, shared, restart);
    ExtendedIsGood(lay, r, shared, restart);
    assert GoodShare(next, |lay.rows|);
    SameLength(lay);
    SameData(lay, r, shared, restart, |lay.rows|);
    assert next.rows[|lay.rows|] == r && next.shares[|lay.rows|] == shared;
  }

  lemma OneMoreFits(lay: Layout, r: Row, shared: nat, restart: bool)
    requires AllFit(lay) && Fits(r)
    ensures AllFit(Extended(lay, r, shared, restart))
  {
  }

  lemma SameLength(lay: Layout)
    requires GoodLayout(lay)
    ensures |lay.shares| == |lay.rows|
    ensures forall k :: 0 <= k < |lay.points| ==> lay.points[k] <= |lay.rows|
  {
  }

  lemma OffsetsExtend(lay: Layout, r: Row, shared: nat, restart: bool, restarts: seq<nat>)
    requires CanExtend(lay, r, shared, restart) && Off(lay, |lay.rows|) < LIMIT
    requires if restart then restarts != [] && restarts[|restarts| - 1] == Off(lay, |lay.rows|) && IsOffsets(lay, restarts[..|restarts| - 1]) else IsOffsets(lay, restarts)
    ensures GoodLayout(Extended(lay, r, shared, restart)) && IsOffsets(Extended(lay, r, shared, restart), restarts)
  {
    var next := Extended(lay, r, shared, restart);
    ExtendedIsGood(lay, r, shared, restart);
    SameLength(lay);
    hide GoodLayout, Data, CanExtend;
    forall k | 0 <= k < |restarts| ensures k < |next.points| && next.points[k] <= |lay.rows| && restarts[k] == Off(next, next.points[k]) {
      assert restart && k < |restarts| - 1 ==> restarts[k] == restarts[..|restarts| - 1][k];
      SameData(lay, r, shared, restart, next.points[k]);
    }
  }

  // ----- finished blocks -----

  lemma FoundFromEnd(lay: Layout, rs: seq<nat>, b: Bytes)
    requires EncodesWith(lay, rs, b)
    ensures GoodLayout(lay) && AllFit(lay)
    ensures |b| == |Data(lay, |lay.rows|)| + 4 * |rs| + 4 && DecodeFixed32(b[|b| - 4..]) == |rs| == |lay.points|
    ensures b[..|Data(lay, |lay.rows|)|] == Data(lay, |lay.rows|)
  {
    assert b[|b| - 4..] == Fixed32(|rs|) + [];
    Fixed32RoundTrip(|rs|, []);
  }

  lemma FoundPoint(lay: Layout, rs: seq<nat>, b: Bytes, k: nat)
    requires EncodesWith(lay, rs, b) && k < |rs|
    ensures k < |lay.points| && |Data(lay, |lay.rows|)| + 4 * k + 4 <= |b|
    ensures DecodeFixed32(b[|Data(lay, |lay.rows|)| + 4 * k..]) == rs[k]
    ensures lay.points[k] <= |lay.rows| ==> DecodeFixed32(b[|Data(lay, |lay.rows|)| + 4 * k..]) == Off(lay, lay.points[k])
  {
    hide Fixed32, DecodeFixed32, Data, GoodLayout, Off;
    ArrayAt(rs, |rs|, k);
    var d := Data(lay, |lay.rows|);
    var tail := b[|d| + 4 * k..];
    assert Array(rs, |rs|)[4 * k..] + Fixed32(|rs|) == tail;
    var rest := tail[4..];
    assert tail == Fixed32(rs[k]) + rest;
    Fixed32RoundTrip(rs[k], rest);
  }

  /** Opening a block: its restart array is found from the end, at an offset of 32 bits. */
  method Open(b: Bytes, ghost lay: Layout) returns (ok: bool, restartOffset: Word, numRestarts: nat)
    ensures ok ==> restartOffset + 4 * numRestarts + 4 <= |b|
    ensures ok && |b| < LIMIT ==> restartOffset + 4 * numRestarts + 4 == |b|
    ensures Encodes(lay, b) ==> ok && numRestarts == |lay.points| && restartOffset == |Data(lay, |lay.rows|)|
  {
    hide DecodeFixed32, Data;
    if Encodes(lay, b) {
      var rs :| EncodesWith(lay, rs, b);
      FoundFromEnd(lay, rs, b);
    }
    restartOffset, numRestarts, ok := 0, 0, false;
    if |b| < 4 {
      return;
    }
    var maxAllowed := (|b| - 4) / 4;
    numRestarts := DecodeFixed32(b[|b| - 4..]);
    if numRestarts <= maxAllowed {
      restartOffset := Wrap(|b| - (1 + numRestarts) * 4, LIMIT);
      ok := true;
    }
  }

  /** An iterator over a finished block stands on sound ground: Seek, Next and Prev find the
      rows that were added. No iterator is made for a damaged or empty restart array. */
  method NewIterator(rank: Rank, b: Bytes, ghost lay: Layout) returns (it: Iter?)
    ensures it != null ==> it.Valid() && it.data == b && it.rank == rank && it.lay == lay && !it.corrupt && !it.wild && fresh(it)
    ensures Encodes(lay, b) ==> it != null && it.Sound()
  {
    var ok, restartOffset, numRestarts := Open(b, lay);
    if !ok || numRestarts == 0 {
      return null;
    }
    it := new Iter(rank, b, restartOffset, numRestarts, lay);
    if Encodes(lay, b) {
      MakesSound(it);
    }
  }

  lemma MakesSound(it: Iter)
    requires it.Framed() && Encodes(it.lay, it.data)
    requires it.numRestarts == |it.lay.points| && it.restarts == |Data(it.lay, |it.lay.rows|)|
    ensures it.Sound()
  {
    hide EncodesWith, DecodeFixed32, Data, GoodLayout, Off, AllFit;
    var rs :| EncodesWith(it.lay, rs, it.data);
    FoundFromEnd(it.lay, rs, it.data);
    PointsFound(it, rs);
  }

  lemma PointsFound(it: Iter, rs: seq<nat>)
    requires it.Framed() && EncodesWith(it.lay, rs, it.data)
    requires it.numRestarts == |it.lay.points| && it.restarts == |Data(it.lay, |it.lay.rows|)|
    ensures forall k :: 0 <= k < |it.lay.points| && it.lay.points[k] <= |it.lay.rows| ==> it.GetRestartPoint(k) == Off(it.lay, it.lay.points[k])
  {
    hide EncodesWith, DecodeFixed32, Data, GoodLayout, Off, AllFit;
    FoundFromEnd(it.lay, rs, it.data);
    forall k | 0 <= k < |it.lay.points| && it.lay.points[k] <= |it.lay.rows| ensures it.GetRestartPoint(k) == Off(it.lay, it.lay.points[k]) {
      FoundPoint(it.lay, rs, it.data, k);
    }
  }

  /** Reading a finished block from front to back gives the rows that were added. */
  method ReadBack(rank: Rank, b: Bytes, ghost lay: Layout) returns (rows: seq<Row>)
    requires Encodes(lay, b)
    ensures rows == lay.rows
  {
    rows := [];
    var it := NewIterator(rank, b, lay);
    hide Encodes, Iter.Sound, Iter.At, Iter.CanParse, Data, GoodLayout, Off;
    it.SeekToFirst();
    ghost var pos := 0;
    it.AtOffset(pos);
    while it.current < it.restarts
      invariant it.Valid() && it.Sound() && it.lay == lay && pos <= |lay.rows| && it.At(pos) && rows == lay.rows[..pos]
      invariant it.current < it.restarts <==> pos < |lay.rows|
      decreases |lay.rows| - pos
    {
      it.AtRow(pos);
      rows := rows + [Row(it.key, it.value)];
      it.Next(pos);
      pos := pos + 1;
      it.AtOffset(pos);
    }
  }
}
