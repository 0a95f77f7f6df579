/** Writing a table: data blocks as they fill, an index key between neighbours once the next
    key is known, filters by file position. */
module TableBuilder {
  import opened Coding
  import opened Block
  import opened Format
  import opened Separators
  import opened Table
  import BlockBuilder
  import Bloom
  import FilterBlock

  const LIMIT: nat := BlockBuilder.LIMIT

  /** The key after section `i`: the next section's first, or the first of the open block. */
  ghost predicate HasNext(sections: seq<Section>, rows: seq<Row>, i: nat) {
    i + 1 < |sections| || rows != []
  }

  ghost predicate RowKeys(rows: seq<Row>) {
    forall r :: r in rows ==> |r.key| >= 8
  }

  ghost function NextFirst(sections: seq<Section>, rows: seq<Row>, i: nat): Key
    requires AllKeys(sections) && RowKeys(rows) && HasNext(sections, rows, i)
  {
    if i + 1 < |sections| then FirstKey(sections[i + 1].lay.rows)
    else
      assert rows[0] in rows;
      rows[0].key
  }

  /** Index entry `i` as it was written once the key after section `i` was known. */
  ghost predicate EntryOk(sections: seq<Section>, rows: seq<Row>, entry: Row, i: nat)
    requires AllKeys(sections) && RowKeys(rows) && i < |sections|
  {
    && |entry.key| >= 8 && entry.value == EncodeHandle(sections[i].handle) && HandleFits(sections[i].handle)
    && HasNext(sections, rows, i)
    && Separates(LastKey(sections[i].lay.rows), entry.key, NextFirst(sections, rows, i))
  }

  /** Sections and open block in key order. */
  ghost predicate Ordered(rank: Rank, sections: seq<Section>, rows: seq<Row>) {
    && AllKeys(sections) && RowKeys(rows) && InOrder(rank, sections)
    && forall i :: 0 <= i < |sections| ==> RowsBelow(rank, sections[i].lay.rows, rows)
  }

  ghost predicate Indexed(sections: seq<Section>, rows: seq<Row>, entries: seq<Row>)
    requires AllKeys(sections) && RowKeys(rows)
  {
    && |entries| <= |sections|
    && forall i :: 0 <= i < |entries| ==> EntryOk(sections, rows, entries[i], i)
  }

  ghost predicate AllStored(crc: Crc, file: Bytes, sections: seq<Section>) {
    forall i :: 0 <= i < |sections| ==> SectionStored(crc, file, sections[i])
  }

  /** A key is in the filter for position `n`, or will be. */
  ghost predicate WillCover(groups: seq<seq<Bytes>>, pending: seq<Bytes>, n: nat, key: Bytes)
    requires |key| >= 8
  {
    if n < |groups| then UserKey(key) in groups[n] else n == |groups| && UserKey(key) in pending
  }

  ghost predicate Filtered(groups: seq<seq<Bytes>>, pending: seq<Bytes>, sections: seq<Section>, rows: seq<Row>, offset: nat)
    requires AllKeys(sections) && RowKeys(rows)
  {
    && |groups| == offset / FilterBlock.BASE
    && (forall i, r :: 0 <= i < |sections| && r in sections[i].lay.rows ==>
          WillCover(groups, pending, sections[i].handle.offset / FilterBlock.BASE, r.key))
    && forall r :: r in rows ==> UserKey(r.key) in pending
  }

  // ----- what each step keeps -----

  lemma RankOrder(rank: Rank, a: Key, b: Key)
    requires Represents(rank)
    ensures rank(a) < rank(b) <==> KeyLess(a, b)
  {
  }

  lemma RowBelowLast(rank: Rank, lay: Layout, r: Row)
    requires SortedRows(lay, rank) && KeysOf(lay.rows) && r in lay.rows
    ensures rank(r.key) <= rank(LastKey(lay.rows))
    ensures rank(FirstKey(lay.rows)) <= rank(r.key)
  {
    var i :| 0 <= i < |lay.rows| && lay.rows[i] == r;
  }

  /** Earlier index keys are below the next one. */
  lemma EntryBelow(rank: Rank, sections: seq<Section>, entries: seq<Row>, i: nat, sep: Key)
    requires Represents(rank) && Ordered(rank, sections, []) && Indexed(sections, [], entries)
    requires i < |entries| < |sections|
    requires !KeyLess(sep, LastKey(sections[|sections| - 1].lay.rows))
    ensures rank(entries[i].key) < rank(sep)
  {
    assert EntryOk(sections, [], entries[i], i);
    var a, b, z := sections[i].lay, sections[i + 1].lay, sections[|sections| - 1].lay;
    var e: Key, last, first, end := entries[i].key, LastKey(a.rows), FirstKey(b.rows), LastKey(z.rows);
    assert a.rows[|a.rows| - 1] in a.rows && b.rows[0] in b.rows && z.rows[|z.rows| - 1] in z.rows;
    assert rank(last) < rank(first) by {
      assert RowsBelow(rank, a.rows, b.rows);
    }
    assert rank(first) <= rank(end) by {
      if i + 1 < |sections| - 1 {
        assert RowsBelow(rank, b.rows, z.rows);
      } else {
        RowBelowLast(rank, z, b.rows[0]);
      }
    }
    RankOrder(rank, e, first);
    RankOrder(rank, sep, end);
  }

  lemma AllBelowNewest(rank: Rank, sections: seq<Section>, lay: Layout, key: Bytes)
    requires Ordered(rank, sections, lay.rows) && SortedRows(lay, rank)
    requires lay.rows != [] ==> rank(lay.rows[|lay.rows| - 1].key) < rank(key)
    requires lay.rows == [] && sections != [] ==> rank(LastKey(sections[|sections| - 1].lay.rows)) < rank(key)
    ensures forall r :: r in lay.rows ==> rank(r.key) < rank(key)
    ensures forall i, r :: 0 <= i < |sections| && r in sections[i].lay.rows ==> rank(r.key) < rank(key)
  {
    var rows := lay.rows;
    forall r | r in rows ensures rank(r.key) < rank(key) {
      RowBelowLast(rank, lay, r);
    }
    forall i, r | 0 <= i < |sections| && r in sections[i].lay.rows ensures rank(r.key) < rank(key) {
      RowBelowLast(rank, sections[i].lay, r);
      if rows != [] {
        assert rows[0] in rows && RowsBelow(rank, sections[i].lay.rows, rows);
      } else if i < |sections| - 1 {
        var z := sections[|sections| - 1].lay.rows;
        assert z[|z| - 1] in z && RowsBelow(rank, sections[i].lay.rows, z);
      }
    }
  }

  lemma RowTaken(rank: Rank, sections: seq<Section>, rows: seq<Row>, r: Row)
    requires Ordered(rank, sections, rows) && |r.key| >= 8
    requires forall i, q :: 0 <= i < |sections| && q in sections[i].lay.rows ==> rank(q.key) < rank(r.key)
    ensures Ordered(rank, sections, rows + [r])
  {
    forall i | 0 <= i < |sections| ensures RowsBelow(rank, sections[i].lay.rows, rows + [r]) {
      assert RowsBelow(rank, sections[i].lay.rows, rows);
    }
  }

  /** A row more in the open block leaves the index entries as they were. */
  lemma EntriesKept(sections: seq<Section>, rows: seq<Row>, entries: seq<Row>, r: Row)
    requires AllKeys(sections) && RowKeys(rows) && |r.key| >= 8 && Indexed(sections, rows, entries)
    ensures RowKeys(rows + [r]) && Indexed(sections, rows + [r], entries)
  {
    forall i | 0 <= i < |entries| ensures EntryOk(sections, rows + [r], entries[i], i) {
      assert EntryOk(sections, rows, entries[i], i);
    }
  }

  lemma EntryAdded(sections: seq<Section>, entries: seq<Row>, sep: Key, r: Row)
    requires AllKeys(sections) && |r.key| >= 8 && Indexed(sections, [], entries) && |entries| == |sections| - 1
    requires
      var s := sections[|sections| - 1];
      HandleFits(s.handle) && Separates(LastKey(s.lay.rows), sep, r.key)
    ensures
      var s := sections[|sections| - 1];
      RowKeys([r]) && Indexed(sections, [r], entries + [Row(sep, EncodeHandle(s.handle))])
  {
    var next := entries + [Row(sep, EncodeHandle(sections[|sections| - 1].handle))];
    forall i | 0 <= i < |next| ensures EntryOk(sections, [r], next[i], i) {
      if i < |entries| {
        assert EntryOk(sections, [], entries[i], i);
      }
    }
  }

  /** The open block becomes a section. */
  lemma BlockClosed(rank: Rank, sections: seq<Section>, lay: Layout, entries: seq<Row>, handle: BlockHandle)
    requires Ordered(rank, sections, lay.rows) && SortedRows(lay, rank) && lay.rows != []
    requires Indexed(sections, lay.rows, entries)
    ensures Ordered(rank, sections + [Section(lay, handle)], []) && Indexed(sections + [Section(lay, handle)], [], entries)
  {
    var next := sections + [Section(lay, handle)];
    assert KeysOf(lay.rows);
    assert AllKeys(next);
    forall i, j | 0 <= i < j < |next| ensures RowsBelow(rank, next[i].lay.rows, next[j].lay.rows) {
      if j < |sections| {
        assert RowsBelow(rank, sections[i].lay.rows, sections[j].lay.rows);
      }
    }
    forall i | 0 <= i < |entries| ensures EntryOk(next, [], entries[i], i) {
      assert EntryOk(sections, lay.rows, entries[i], i);
    }
  }

  lemma StillStored(crc: Crc, file: Bytes, more: Bytes, sections: seq<Section>)
    requires AllStored(crc, file, sections)
    ensures AllStored(crc, file + more, sections)
  {
    hide SectionStored;
    forall i | 0 <= i < |sections| ensures SectionStored(crc, file + more, sections[i]) {
      SectionStillStored(crc, file, more, sections[i]);
    }
  }

  lemma SectionStillStored(crc: Crc, file: Bytes, more: Bytes, s: Section)
    requires SectionStored(crc, file, s)
    ensures SectionStored(crc, file + more, s)
  {
    hide BlockBuilder.Encodes;
    var contents :| StoredAt(crc, file, s.handle, contents) && BlockBuilder.Encodes(s.lay, contents);
    StoredLonger(crc, file, more, s.handle, contents);
  }

  lemma StoredLonger(crc: Crc, file: Bytes, more: Bytes, h: BlockHandle, contents: Bytes)
    requires StoredAt(crc, file, h, contents)
    ensures StoredAt(crc, file + more, h, contents)
  {
    var n := h.offset + h.size;
    assert (file + more)[h.offset..n] == file[h.offset..n] && (file + more)[n..n + TRAILER] == file[n..n + TRAILER];
  }

  /** A raw block is where its handle says. */
  lemma RawStored(crc: Crc, file: Bytes, contents: Bytes)
    ensures StoredAt(crc, file + contents + Trailer(crc, contents), BlockHandle(|file|, |contents|), contents)
  {
    var t := Trailer(crc, contents);
    var whole := file + contents + t;
    assert whole[|file|..|file| + |contents|] == contents;
    assert whole[|file| + |contents|..|file| + |contents| + TRAILER] == t;
  }

  /** Filters before and after StartBlock at a later offset. */
  lemma FiltersMove(groups: seq<seq<Bytes>>, pending: seq<Bytes>, sections: seq<Section>, rows: seq<Row>, s: Section, offset: nat,
                    groups': seq<seq<Bytes>>, pending': seq<Bytes>, offset': nat)
    requires AllKeys(sections) && RowKeys(rows) && Filtered(groups, pending, sections, rows, offset)
    requires s.lay.rows == rows && rows != [] && s.handle.offset == offset && |groups'| == offset' / FilterBlock.BASE && |groups| <= |groups'|
    requires |groups'| == |groups| ==> groups' == groups && pending' == pending
    requires |groups'| > |groups| ==> groups' == groups + [pending] + seq(|groups'| - |groups| - 1, _ => [])
    ensures AllKeys(sections + [s]) && Filtered(groups', pending', sections + [s], [], offset')
  {
    var next := sections + [s];
    assert AllKeys(next);
    forall i, r | 0 <= i < |next| && r in next[i].lay.rows ensures WillCover(groups', pending', next[i].handle.offset / FilterBlock.BASE, r.key) {
      if i < |sections| {
        assert WillCover(groups, pending, sections[i].handle.offset / FilterBlock.BASE, r.key);
      }
    }
  }

  /** The rows of all the sections. */
  ghost function RowsOf(sections: seq<Section>): seq<Row> {
    if sections == [] then [] else RowsOf(sections[..|sections| - 1]) + sections[|sections| - 1].lay.rows
  }

  lemma RowsGrow(sections: seq<Section>, s: Section)
    ensures RowsOf(sections + [s]) + [] == RowsOf(sections) + s.lay.rows
  {
    assert (sections + [s])[..|sections|] == sections;
  }

  // ----- the builder's state -----

  /** Sections written, the open block's layout, the index so far, and the handle of a section
      whose index entry is still to come. */
  datatype State = State(sections: seq<Section>, lay: Layout, entries: seq<Row>, pending: bool, handle: BlockHandle, lastKey: Key, count: nat)

  /** The last key added. */
  ghost predicate IsNewest(sections: seq<Section>, rows: seq<Row>, key: Key) {
    if rows != [] then rows[|rows| - 1].key == key
    else sections != [] && KeysOf(sections[|sections| - 1].lay.rows) && LastKey(sections[|sections| - 1].lay.rows) == key
  }

  ghost predicate Good(rank: Rank, crc: Crc, file: Bytes, st: State) {
    && Ordered(rank, st.sections, st.lay.rows) && Indexed(st.sections, st.lay.rows, st.entries) && AllStored(crc, file, st.sections)
    && |st.entries| == |st.sections| - (if st.pending then 1 else 0)
    && (st.pending ==> st.lay.rows == [] && st.handle == st.sections[|st.sections| - 1].handle && HandleFits(st.handle))
    && (!st.pending && st.sections != [] ==> st.lay.rows != [])
    && (st.count == 0 <==> st.sections == [] && st.lay.rows == [])
    && (st.count > 0 ==> IsNewest(st.sections, st.lay.rows, st.lastKey) && |st.lastKey| < LIMIT)
  }

  ghost predicate GoodFilters(st: State, groups: seq<seq<Bytes>>, pending: seq<Bytes>, offset: nat) {
    AllKeys(st.sections) && RowKeys(st.lay.rows) && Filtered(groups, pending, st.sections, st.lay.rows, offset)
  }

  lemma Flushed(rank: Rank, crc: Crc, file: Bytes, st: State, contents: Bytes)
    requires Good(rank, crc, file, st) && SortedRows(st.lay, rank) && st.lay.rows != []
    requires BlockBuilder.Encodes(st.lay, contents) && HandleFits(BlockHandle(|file|, |contents|))
    ensures
      var s := Section(st.lay, BlockHandle(|file|, |contents|));
      forall lay: Layout | lay.rows == [] ::
        Good(rank, crc, file + contents + Trailer(crc, contents), State(st.sections + [s], lay, st.entries, true, s.handle, st.lastKey, st.count))
  {
    hide AllStored, Represents, AllKeys, InOrder, Varint, Ordered, Indexed, BlockBuilder.Encodes, RowKeys, SortedRows, StoredAt;
    var h := BlockHandle(|file|, |contents|);
    var s := Section(st.lay, h);
    var whole := file + contents + Trailer(crc, contents);
    BlockClosed(rank, st.sections, st.lay, st.entries, h);
    RawStored(crc, file, contents);
    assert whole == file + (contents + Trailer(crc, contents));
    StillStored(crc, file, contents + Trailer(crc, contents), st.sections);
    AlsoStored(crc, whole, st.sections, s, contents);
    assert KeysOf(st.lay.rows) by {
      SomeKeys(rank, st.sections, st.lay.rows);
    }
  }

  lemma SomeKeys(rank: Rank, sections: seq<Section>, rows: seq<Row>)
    requires Ordered(rank, sections, rows) && rows != []
    ensures KeysOf(rows)
  {
  }

  lemma AlsoStored(crc: Crc, file: Bytes, sections: seq<Section>, s: Section, contents: Bytes)
    requires AllStored(crc, file, sections) && StoredAt(crc, file, s.handle, contents) && BlockBuilder.Encodes(s.lay, contents)
    ensures AllStored(crc, file, sections + [s])
  {
  }

  lemma StartsGood(rank: Rank, crc: Crc, st: State)
    requires st.sections == [] && st.lay.rows == [] && st.entries == [] && !st.pending && st.count == 0
    ensures Good(rank, crc, [], st) && GoodFilters(st, [], [], 0) && RowsOf([]) + [] == []
  {
  }

  lemma CanIndex(rank: Rank, crc: Crc, file: Bytes, st: State, sep: Key)
    requires Represents(rank) && Good(rank, crc, file, st) && st.pending
    requires st.lastKey == sep || KeyLess(st.lastKey, sep)
    ensures forall e :: e in st.entries ==> rank(e.key) < rank(sep)
    ensures |EncodeHandle(st.handle)| <= 20 && st.count > 0 && |st.lastKey| < LIMIT
  {
    hide AllStored, Represents, AllKeys, InOrder, Varint, KeyLess, Ordered, Indexed, KeysOf;
    AtMostTen(st.handle.offset);
    AtMostTen(st.handle.size);
    EntriesBelow(rank, st.sections, st.entries, st.lastKey, sep);
  }

  lemma EntriesBelow(rank: Rank, sections: seq<Section>, entries: seq<Row>, last: Key, sep: Key)
    requires Represents(rank) && Ordered(rank, sections, []) && Indexed(sections, [], entries) && |entries| < |sections|
    requires IsNewest(sections, [], last) && (last == sep || KeyLess(last, sep))
    ensures forall e :: e in entries ==> rank(e.key) < rank(sep)
  {
    KeyTotal(last, sep);
    hide Ordered, Indexed, Represents, KeyLess;
    forall e | e in entries ensures rank(e.key) < rank(sep) {
      var i :| 0 <= i < |entries| && entries[i] == e;
      EntryBelow(rank, sections, entries, i, sep);
    }
  }

  lemma CanAdd(rank: Rank, crc: Crc, file: Bytes, st: State, key: Key)
    requires Represents(rank) && Good(rank, crc, file, st) && SortedRows(st.lay, rank)
    requires st.count > 0 ==> KeyLess(st.lastKey, key)
    ensures forall r :: r in st.lay.rows ==> rank(r.key) < rank(key)
    ensures forall i, r :: 0 <= i < |st.sections| && r in st.sections[i].lay.rows ==> rank(r.key) < rank(key)
  {
    hide Represents, KeyLess, AllStored, Indexed, SortedRows;
    if st.count > 0 {
      RankOrder(rank, st.lastKey, key);
      AllBelowNewest(rank, st.sections, st.lay, key);
    }
  }

  /** The state after a key, given the separator written if one was due. */
  lemma Added(rank: Rank, crc: Crc, file: Bytes, st: State, sep: Key, r: Row, st': State)
    requires Represents(rank) && Good(rank, crc, file, st) && SortedRows(st.lay, rank)
    requires 8 <= |r.key| < LIMIT && (st.count > 0 ==> KeyLess(st.lastKey, r.key))
    requires st.pending ==> Separates(st.lastKey, sep, r.key)
    requires st'.sections == st.sections && st'.lay.rows == st.lay.rows + [r] && !st'.pending && st'.lastKey == r.key && st'.count == st.count + 1
    requires st'.entries == st.entries + if st.pending then [Row(sep, EncodeHandle(st.handle))] else []
    ensures Good(rank, crc, file, st')
  {
    hide Represents, KeyLess, Separates, EncodeHandle, SortedRows, AllStored, Indexed, InOrder, RowsBelow;
    CanAdd(rank, crc, file, st, r.key);
    RowTaken(rank, st.sections, st.lay.rows, r);
    if st.pending {
      EntryAdded(st.sections, st.entries, sep, r);
      assert st.lay.rows + [r] == [r];
    } else {
      EntriesKept(st.sections, st.lay.rows, st.entries, r);
      assert st'.entries == st.entries;
    }
  }

  lemma FilterAdded(st: State, groups: seq<seq<Bytes>>, pending: seq<Bytes>, offset: nat, r: Row, st': State)
    requires GoodFilters(st, groups, pending, offset) && |r.key| >= 8
    requires st'.sections == st.sections && st'.lay.rows == st.lay.rows + [r]
    ensures GoodFilters(st', groups, pending + [UserKey(r.key)], offset)
  {
    forall i, q | 0 <= i < |st.sections| && q in st.sections[i].lay.rows
      ensures WillCover(groups, pending + [UserKey(r.key)], st.sections[i].handle.offset / FilterBlock.BASE, q.key)
    {
      assert WillCover(groups, pending, st.sections[i].handle.offset / FilterBlock.BASE, q.key);
    }
  }

  class Builder {
    const rank: Rank
    const crc: Crc
    const blockSize: nat
    const dataBlock: BlockBuilder.Builder
    const indexBlock: BlockBuilder.Builder
    const filterBlock: FilterBlock.Builder?
    /** The filter policy's name. */
    const filterName: Bytes
    var file: Bytes
    var lastKey: Key
    var numEntries: nat
    var pendingIndexEntry: bool
    var pendingHandle: BlockHandle
    var closed: bool
    ghost var sections: seq<Section>

    ghost function Footprint(): set<object> {
      {this, dataBlock, indexBlock} + if filterBlock == null then {} else {filterBlock}
    }

    ghost function Now(): State
      reads this, dataBlock, indexBlock
    {
      State(sections, dataBlock.lay, indexBlock.lay.rows, pendingIndexEntry, pendingHandle, lastKey, numEntries)
    }

    ghost predicate Valid()
      reads Footprint()
    {
      && dataBlock != indexBlock && dataBlock.rank == indexBlock.rank == rank && Represents(rank)
      && dataBlock.Valid() && !dataBlock.finished && indexBlock.Valid() && (!closed ==> !indexBlock.finished)
      && Good(rank, crc, file, Now())
      && (filterBlock != null ==> filterBlock.Valid() && GoodFilters(Now(), filterBlock.groups, filterBlock.pending, |file|))
    }

    constructor (rank: Rank, crc: Crc, blockSize: nat, interval: nat, filterBlock: FilterBlock.Builder?, filterName: Bytes)
      requires Represents(rank) && interval >= 1
      requires filterBlock != null ==> filterBlock.Valid() && filterBlock.groups == [] && filterBlock.pending == []
      ensures Valid() && Contents() == [] && !closed && numEntries == 0 && file == [] && Load() == 16 && OpenLoad() == 4
      ensures this.rank == rank && this.crc == crc && this.filterBlock == filterBlock && this.filterName == filterName
      ensures fresh(dataBlock) && fresh(indexBlock)
    {
      hide Good, GoodFilters, BlockBuilder.Builder.Valid, FilterBlock.Builder.Valid, Represents, RowsOf;
      this.rank, this.crc, this.blockSize, this.filterBlock, this.filterName := rank, crc, blockSize, filterBlock, filterName;
      dataBlock := new BlockBuilder.Builder(rank, interval);
      indexBlock := new BlockBuilder.Builder(rank, 1);
      file, numEntries, pendingIndexEntry, pendingHandle, closed := [], 0, false, BlockHandle(0, 0), false;
      lastKey := [0, 0, 0, 0, 0, 0, 0, 0];
      sections := [];
      new;
      StartsGood(rank, crc, Now());
    }

    /** All rows added so far. */
    ghost function Contents(): seq<Row>
      reads this, dataBlock
    {
      RowsOf(sections) + dataBlock.lay.rows
    }

    method WriteRawBlock(contents: Bytes) returns (handle: BlockHandle)
      modifies this`file
      ensures handle == BlockHandle(|old(file)|, |contents|) && file == old(file) + contents + Trailer(crc, contents)
    {
      handle := BlockHandle(|file|, |contents|);
      file := file + contents;
      var trailer := [0] + Fixed32(Mask(crc(contents + [0])));
      file := file + trailer;
    }

    /** What the open block, the index and the keys in hand take up. */
    ghost function Load(): nat
      reads this, dataBlock, indexBlock
    {
      |dataBlock.buffer| + 4 * |dataBlock.restarts| + |indexBlock.buffer| + 4 * |indexBlock.restarts| + |lastKey|
    }

    /** The file with the open block. */
    ghost function OpenLoad(): nat
      reads this, dataBlock
    {
      |file| + |dataBlock.buffer| + 4 * |dataBlock.restarts|
    }

    /** With `n` more bytes of keys and values, blocks stay within 32-bit offsets and the file
        within 64-bit handles. */
    ghost predicate Room(n: nat)
      reads this, dataBlock, indexBlock
    {
      Load() + n + 100 < LIMIT && |file| < WORD64 - 32 * LIMIT
    }

    lemma FileIsSmall()
      ensures |file| <= OpenLoad()
    {
    }

    /** Ends the open block; its index entry waits for the next key. */
    method Flush()
      requires Valid() && !closed && Load() < LIMIT && |file| < WORD64 - 16 * LIMIT
      modifies this, dataBlock, if filterBlock == null then {} else {filterBlock}
      ensures Valid() && !closed && dataBlock.lay.rows == [] && Contents() == old(Contents())
      ensures Load() <= old(Load()) + 4 && OpenLoad() <= old(OpenLoad()) + 13 && numEntries == old(numEntries) && lastKey == old(lastKey)
      ensures FilterLoad() <= old(FilterLoad()) && |file| <= OpenLoad()
      ensures sections == if old(dataBlock.lay.rows) == [] then old(sections) else old(sections) + [Section(old(dataBlock.lay), pendingHandle)]
      ensures old(dataBlock.lay.rows) != [] ==> pendingHandle == BlockHandle(|old(file)|, old(dataBlock.CurrentSizeEstimate()))
    {
      hide Good, GoodFilters, BlockBuilder.Builder.Valid, FilterBlock.Builder.Valid, Represents, RowsOf;
      dataBlock.EmptyBuffer();
      if dataBlock.buffer == [] {
        return;
      }
      ghost var st, was := Now(), file;
      WriteDataBlock();
      if filterBlock != null {
        ghost var groups, pending := filterBlock.groups, filterBlock.pending;
        FilterWindow(st, groups, pending, |was|, |file|);
        filterBlock.StartBlock(|file|);
        FiltersFlushed(st, groups, pending, sections[|sections| - 1], |was|, filterBlock.groups, filterBlock.pending, |file|, Now());
      }
    }

    /** The open block becomes a section. */
    method WriteDataBlock()
      requires dataBlock != indexBlock && dataBlock.rank == rank && Represents(rank)
      requires dataBlock.Valid() && !dataBlock.finished && Good(rank, crc, file, Now()) && dataBlock.lay.rows != []
      requires Load() < LIMIT && |file| < WORD64 - 16 * LIMIT
      modifies this`file, this`pendingHandle, this`pendingIndexEntry, this`sections, dataBlock
      ensures dataBlock.Valid() && !dataBlock.finished && Good(rank, crc, file, Now()) && dataBlock.lay.rows == []
      ensures sections == old(sections) + [Section(old(dataBlock.lay), pendingHandle)]
      ensures pendingHandle == BlockHandle(|old(file)|, old(dataBlock.CurrentSizeEstimate()))
      ensures Contents() == old(Contents()) && dataBlock.buffer == [] && dataBlock.restarts == [0]
      ensures |file| == |old(file)| + |old(dataBlock.buffer)| + 4 * |old(dataBlock.restarts)| + 4 + TRAILER
    {
      hide Good, BlockBuilder.Builder.Valid, Represents, RowsOf;
      ghost var st, was := Now(), file;
      assert SortedRows(st.lay, rank) by { dataBlock.IsSorted(); }
      hide SortedRows;
      var contents := dataBlock.Finish();
      pendingHandle := WriteRawBlock(contents);
      dataBlock.Reset();
      pendingIndexEntry := true;
      Flushed(rank, crc, was, st, contents);
      ghost var s := Section(st.lay, pendingHandle);
      RowsGrow(sections, s);
      sections := sections + [s];
    }

    /** The row goes to the open block, which is written out as soon as its bytes reach the block
        size and no sooner. */
    method Add(key: Key, value: Bytes)
      requires Valid() && !closed && Room(2 * |key| + |value|)
      requires numEntries > 0 ==> KeyLess(lastKey, key)
      modifies Footprint()
      ensures Valid() && !closed && Contents() == old(Contents()) + [Row(key, value)]
      ensures
        || (sections == old(sections) && dataBlock.lay.rows == old(dataBlock.lay.rows) + [Row(key, value)]
            && |dataBlock.buffer| + 4 * |dataBlock.restarts| + 4 < blockSize)
        || (|sections| == |old(sections)| + 1 && sections[..|old(sections)|] == old(sections) && dataBlock.lay.rows == []
            && sections[|old(sections)|].lay.rows == old(dataBlock.lay.rows) + [Row(key, value)]
            && sections[|old(sections)|].handle.size >= blockSize)
      ensures numEntries > 0 && lastKey == key
      ensures Load() <= old(Load()) + 2 * |key| + |value| + 64 && OpenLoad() <= old(OpenLoad()) + |key| + |value| + 32
      ensures FilterLoad() <= old(FilterLoad()) + KeyShare()
    {
      hide Good, GoodFilters, BlockBuilder.Builder.Valid, FilterBlock.Builder.Valid, Represents, RowsOf, IsNewest;
      PutEntry(key, value);
      if dataBlock.CurrentSizeEstimate() >= blockSize {
        Flush();
      }
    }

    method AddIndexEntry(separator: Key)
      requires indexBlock.Valid() && !indexBlock.finished && |indexBlock.buffer| < LIMIT
      requires |separator| < LIMIT && |EncodeHandle(pendingHandle)| <= HANDLE
      requires forall e :: e in indexBlock.lay.rows ==> indexBlock.rank(e.key) < indexBlock.rank(separator)
      modifies indexBlock, this`pendingIndexEntry
      ensures indexBlock.Valid() && !indexBlock.finished && !pendingIndexEntry
      ensures indexBlock.lay.rows == old(indexBlock.lay.rows) + [Row(separator, EncodeHandle(pendingHandle))]
      ensures |indexBlock.restarts| <= |old(indexBlock.restarts)| + 1
      ensures |indexBlock.buffer| <= |old(indexBlock.buffer)| + |separator| + 35
    {
      var handleEncoding := EncodeHandle(pendingHandle);
      indexBlock.Add(separator, handleEncoding);
      pendingIndexEntry := false;
    }

    /** The index entry that waits for this key. */
    method IndexPending(key: Key) returns (ghost sep: Key)
      requires dataBlock != indexBlock && indexBlock.rank == rank && Represents(rank) && Good(rank, crc, file, Now())
      requires indexBlock.Valid() && !indexBlock.finished && pendingIndexEntry && Load() < LIMIT
      modifies indexBlock, this`pendingIndexEntry
      ensures indexBlock.Valid() && !indexBlock.finished && !pendingIndexEntry && Separates(lastKey, sep, key)
      ensures indexBlock.lay.rows == old(indexBlock.lay.rows) + [Row(sep, EncodeHandle(pendingHandle))]
      ensures Load() <= old(Load()) + |lastKey| + 39
    {
      hide Good, BlockBuilder.Builder.Valid, Represents, RowsOf;
      var separator := FindShortestKeySeparator(lastKey, key);
      sep := separator;
      CanIndex(rank, crc, file, Now(), sep);
      AddIndexEntry(separator);
    }

    /** The key goes to the filter being filled. */
    method AddToFilter(key: Key)
      requires filterBlock != null ==> filterBlock.Valid()
      modifies if filterBlock == null then {} else {filterBlock}
      ensures filterBlock != null ==>
        && filterBlock.Valid() && filterBlock.groups == old(filterBlock.groups)
        && filterBlock.pending == old(filterBlock.pending) + [UserKey(key)]
      ensures FilterLoad() == old(FilterLoad()) + KeyShare()
    {
      hide FilterBlock.Builder.Valid, UserKey;
      if filterBlock != null {
        filterBlock.AddKey(UserKey(key));
      }
    }

    /** The row goes to the open block. */
    method AddToBlock(key: Key, value: Bytes, ghost st: State, ghost sep: Key)
      requires dataBlock != indexBlock && dataBlock.rank == rank && Represents(rank) && dataBlock.Valid() && !dataBlock.finished
      requires Good(rank, crc, file, st) && st.lay == dataBlock.lay && st.sections == sections && st.count == numEntries
      requires !pendingIndexEntry && (st.pending ==> Separates(st.lastKey, sep, key)) && (st.count > 0 ==> KeyLess(st.lastKey, key))
      requires indexBlock.lay.rows == st.entries + if st.pending then [Row(sep, EncodeHandle(st.handle))] else []
      requires |key| < LIMIT && |value| < LIMIT && |dataBlock.buffer| < LIMIT
      modifies this`lastKey, this`numEntries, dataBlock
      ensures dataBlock.Valid() && !dataBlock.finished && Good(rank, crc, file, Now())
      ensures numEntries > 0 && lastKey == key && dataBlock.lay.rows == st.lay.rows + [Row(key, value)]
      ensures |dataBlock.buffer| <= |old(dataBlock.buffer)| + |key| + |value| + 15 && |dataBlock.restarts| <= |old(dataBlock.restarts)| + 1
    {
      hide Good, BlockBuilder.Builder.Valid, Represents, RowsOf, SortedRows, KeyLess, Separates, EncodeHandle;
      dataBlock.IsSorted();
      CanAdd(rank, crc, file, st, key);
      lastKey := key;
      numEntries := numEntries + 1;
      dataBlock.Add(key, value);
      Added(rank, crc, file, st, sep, Row(key, value), Now());
    }

    /** All of Add but the flush. */
    method PutEntry(key: Key, value: Bytes)
      requires Valid() && !closed && Room(2 * |key| + |value|)
      requires numEntries > 0 ==> KeyLess(lastKey, key)
      modifies Footprint()
      ensures Valid() && !closed && Contents() == old(Contents()) + [Row(key, value)] && file == old(file)
      ensures numEntries > 0 && lastKey == key
      ensures Load() <= old(Load()) + 2 * |key| + |value| + 60 && OpenLoad() <= old(OpenLoad()) + |key| + |value| + 19
      ensures FilterLoad() <= old(FilterLoad()) + KeyShare()
      ensures sections == old(sections) && dataBlock.lay.rows == old(dataBlock.lay.rows) + [Row(key, value)]
    {
      hide Good, GoodFilters, BlockBuilder.Builder.Valid, FilterBlock.Builder.Valid, Represents, RowsOf, SortedRows, KeyLess, Separates, EncodeHandle, UserKey;
      ghost var st, sep := Now(), key;
      if pendingIndexEntry {
        sep := IndexPending(key);
      }
      ghost var groups, waiting := [], [];
      if filterBlock != null {
        groups, waiting := filterBlock.groups, filterBlock.pending;
      }
      AddToFilter(key);
      AddToBlock(key, value, st, sep);
      if filterBlock != null {
        FilterAdded(st, groups, waiting, |file|, Row(key, value), Now());
      }
    }

    /** Ends the table: filters, metaindex, last index key, index, footer. */
    method Finish() returns (ghost parts: Parts)
      requires Valid() && !closed && Room(0) && |filterName| < LIMIT - 100 && FilterRoom()
      modifies Footprint()
      ensures closed && RowsOf(parts.sections) == old(Contents()) && Written(rank, crc, file, parts)
      ensures if filterBlock == null then parts.filter.NoFilter? else parts.filter.Filter? && parts.filter.name == filterName && parts.filter.hash == filterBlock.hash
    {
      hide Good, GoodFilters, FilterBlock.Builder.Valid, BlockBuilder.Builder.Valid, RowsOf, Represents, HasFilter, Written;
      Flush();
      closed := true;
      ghost var flushed := file;
      assert RowsOf(sections) == RowsOf(sections) + [];
      if filterBlock != null {
        GroupsCount(Now(), filterBlock.groups, filterBlock.pending, |file|);
      }
      var filterHandle;
      ghost var filter;
      filterHandle, filter := FinishFilter();
      parts := WriteTail(filterHandle, filter, flushed);
    }

    /** What comes after the filters. */
    method WriteTail(filterHandle: BlockHandle, ghost filter: FilterPart, ghost flushed: Bytes) returns (ghost parts: Parts)
      requires indexBlock.Valid() && !indexBlock.finished && indexBlock.rank == rank && Represents(rank) && dataBlock != indexBlock
      requires Load() + 90 < LIMIT && |file| < WORD64 - 6 * LIMIT && |filterName| < LIMIT - 100
      requires Good(rank, crc, flushed, Now()) && dataBlock.lay.rows == [] && flushed <= file
      requires if filterBlock == null then filter.NoFilter? else filter.Filter? && filter.name == filterName && filter.handle == filterHandle && HandleFits(filterHandle)
      requires HasFilter(crc, file, sections, filter)
      modifies this`file, this`pendingIndexEntry, indexBlock
      ensures parts.sections == sections && parts.filter == filter && Written(rank, crc, file, parts)
    {
      hide Good, GoodFilters, FilterBlock.Builder.Valid, BlockBuilder.Builder.Valid, Represents, Finished, HasMeta, HasFilter, Written, EncodeFooter;
      ghost var file1 := file;
      var metaindexHandle;
      ghost var meta, metaContents;
      metaindexHandle, meta, metaContents := WriteMetaindex(filterHandle, filter);
      ghost var file2 := file;
      var indexHandle, indexContents := WriteIndex(flushed);
      ghost var file3 := file;
      file := file + EncodeFooter(metaindexHandle, indexHandle);
      parts := Parts(sections, indexBlock.lay, indexHandle, indexContents, filter, meta, metaindexHandle, metaContents);
      AllWritten(rank, crc, file1, file2, file3, file, parts);
    }

    ghost function FilterLoad(): int
      reads if filterBlock == null then {} else {filterBlock}
    {
      if filterBlock == null then 0 else filterBlock.Load() - 4 * |filterBlock.groups|
    }

    /** What a key adds to the filters. */
    ghost function KeyShare(): nat {
      if filterBlock == null then 0 else filterBlock.bitsPerKey + 16
    }

    /** The filter block stays within 32-bit offsets. */
    ghost predicate FilterRoom()
      reads Footprint()
    {
      FilterLoad() + OpenLoad() / 512 + 100 < LIMIT
    }

    /** The filter block, if the table has filters. */
    method FinishFilter() returns (handle: BlockHandle, ghost filter: FilterPart)
      requires |file| < WORD64
      requires filterBlock != null ==>
                 && filterBlock.Valid() && GoodFilters(Now(), filterBlock.groups, filterBlock.pending, |file|)
                 && filterBlock.Load() + 9 < LIMIT
      modifies this`file, if filterBlock == null then {} else {filterBlock}
      ensures |old(file)| <= |file| <= |old(file)| + LIMIT + TRAILER && old(file) <= file
      ensures if filterBlock == null then filter.NoFilter?
              else filter.Filter? && filter.name == filterName && filter.hash == filterBlock.hash && filter.handle == handle && HandleFits(handle)
      ensures HasFilter(crc, file, sections, filter)
    {
      hide HasFilter, GoodFilters, FilterBlock.Builder.Valid;
      handle, filter := BlockHandle(0, 0), NoFilter;
      if filterBlock != null {
        handle, filter := WriteFilter();
      }
      NoFilterThere(crc, file, sections);
    }

    method WriteFilter() returns (handle: BlockHandle, ghost filter: FilterPart)
      requires filterBlock != null && filterBlock.Valid() && GoodFilters(Now(), filterBlock.groups, filterBlock.pending, |file|)
      requires filterBlock.Load() + 9 < LIMIT && |file| < WORD64
      modifies this`file, filterBlock
      ensures |old(file)| <= |file| <= |old(file)| + LIMIT + TRAILER && old(file) <= file
      ensures filter.Filter? && filter.name == filterName && filter.hash == filterBlock.hash && filter.handle == handle && HandleFits(handle)
      ensures HasFilter(crc, file, sections, filter)
    {
      hide GoodFilters, FilterBlock.Builder.Valid, StoredAt, SectionFiltered, FilterBlock.EncodesFilters;
      ghost var st, before, waiting, was := Now(), filterBlock.groups, filterBlock.pending, file;
      ghost var groups;
      var contents;
      contents, groups := filterBlock.Finish();
      handle := WriteRawBlock(contents);
      AllFiltered(st, before, waiting, |was|, groups);
      RawStored(crc, was, contents);
      filter := Filter(filterName, filterBlock.hash, handle, contents, groups);
    }

    /** One row that says where the filter block is, or none. */
    method WriteMetaindex(filterHandle: BlockHandle, ghost filter: FilterPart)
      returns (handle: BlockHandle, ghost lay: Layout, ghost stored: Bytes)
      requires |filterName| < LIMIT - 100 && |file| < WORD64 - LIMIT
      requires if filterBlock == null then filter.NoFilter? else filter.Filter? && filter.name == filterName && filter.handle == filterHandle && HandleFits(filterHandle)
      modifies this`file
      ensures old(file) <= file && |file| <= |old(file)| + LIMIT + 100 && HandleFits(handle)
      ensures HasMeta(crc, file, filter, lay, handle, stored)
    {
      hide BlockBuilder.Builder.Valid, EncodeHandle, StoredAt, BlockBuilder.Encodes;
      var block := new BlockBuilder.Builder(rank, 1);
      if filterBlock != null {
        var key := FilterKey(filterName);
        var handleEncoding := EncodeHandle(filterHandle);
        HandleLength(filterHandle);
        block.Add(key, handleEncoding);
      }
      var contents := block.Finish();
      lay, stored := block.lay, contents;
      ghost var was := file;
      handle := WriteRawBlock(contents);
      RawStored(crc, was, contents);
    }

    method WriteIndex(ghost flushed: Bytes) returns (handle: BlockHandle, contents: Bytes)
      requires indexBlock.Valid() && !indexBlock.finished && indexBlock.rank == rank && Represents(rank) && dataBlock != indexBlock
      requires Load() + 90 < LIMIT && |file| < WORD64 - 4 * LIMIT
      requires Good(rank, crc, flushed, Now()) && dataBlock.lay.rows == [] && flushed <= file
      modifies this`file, this`pendingIndexEntry, indexBlock
      ensures old(file) <= file && |file| <= |old(file)| + 2 * LIMIT && HandleFits(handle)
      ensures Finished(rank, crc, file, sections, indexBlock.lay, handle, contents)
    {
      hide Good, BlockBuilder.Builder.Valid, Represents, BlockBuilder.Encodes, SortedRows, Finished, KeyLess;
      ghost var st, sep := Now(), lastKey;
      if pendingIndexEntry {
        var successor := FindShortKeySuccessor(lastKey);
        sep := successor;
        CanIndex(rank, crc, flushed, st, sep);
        AddIndexEntry(successor);
      }
      indexBlock.IsSorted();
      ghost var was := file;
      contents := indexBlock.Finish();
      handle := WriteRawBlock(contents);
      IndexDone(rank, crc, flushed, st, sep, indexBlock.lay);
      assert was == flushed + was[|flushed|..];
      TableDone(rank, crc, flushed, was[|flushed|..], sections, indexBlock.lay, contents);
    }
  }

  /** The filter block's key in the metaindex. */
  function FilterKey(name: Bytes): Bytes {
    [0x66, 0x69, 0x6c, 0x74, 0x65, 0x72, 0x2e] + name
  }

  datatype FilterPart =
    | NoFilter
    | Filter(name: Bytes, hash: Bloom.Hash, handle: BlockHandle, contents: Bytes, groups: seq<seq<Bytes>>)

  /** What a finished file is made of. */
  datatype Parts = Parts(sections: seq<Section>, index: Layout, indexHandle: BlockHandle, indexContents: Bytes,
                         filter: FilterPart, meta: Layout, metaindexHandle: BlockHandle, metaContents: Bytes)

  function MetaRows(filter: FilterPart): seq<Row> {
    match filter
    case NoFilter => []
    case Filter(name, _, handle, _, _) => [Row(FilterKey(name), EncodeHandle(handle))]
  }

  ghost predicate HasFilter(crc: Crc, file: Bytes, sections: seq<Section>, filter: FilterPart) {
    filter.Filter? ==>
      && HandleFits(filter.handle) && StoredAt(crc, file, filter.handle, filter.contents)
      && FilterBlock.EncodesFilters(filter.hash, filter.groups, filter.contents)
      && forall i :: 0 <= i < |sections| ==> SectionFiltered(sections[i], filter.groups)
  }

  ghost predicate HasMeta(crc: Crc, file: Bytes, filter: FilterPart, meta: Layout, handle: BlockHandle, contents: Bytes) {
    && HandleFits(handle) && StoredAt(crc, file, handle, contents)
    && BlockBuilder.Encodes(meta, contents) && meta.rows == MetaRows(filter)
  }

  /** A finished table file. */
  ghost predicate Written(rank: Rank, crc: Crc, file: Bytes, parts: Parts) {
    && Represents(rank) && Finished(rank, crc, file, parts.sections, parts.index, parts.indexHandle, parts.indexContents)
    && HasFilter(crc, file, parts.sections, parts.filter)
    && HasMeta(crc, file, parts.filter, parts.meta, parts.metaindexHandle, parts.metaContents)
    && HandleFits(parts.indexHandle) && |file| >= FOOTER
    && file[|file| - FOOTER..] == EncodeFooter(parts.metaindexHandle, parts.indexHandle)
  }

  lemma NoFilterThere(crc: Crc, file: Bytes, sections: seq<Section>)
    ensures HasFilter(crc, file, sections, NoFilter)
  {
  }

  lemma StoredKept(crc: Crc, file: Bytes, whole: Bytes, h: BlockHandle, contents: Bytes)
    requires StoredAt(crc, file, h, contents) && file <= whole
    ensures StoredAt(crc, whole, h, contents)
  {
    var n := h.offset + h.size;
    assert whole[h.offset..n] == file[h.offset..n] && whole[n..n + TRAILER] == file[n..n + TRAILER];
  }

  /** What is written later leaves all that was there. */
  lemma AllWritten(rank: Rank, crc: Crc, file1: Bytes, file2: Bytes, file3: Bytes, file: Bytes, parts: Parts)
    requires HandleFits(parts.metaindexHandle) && HandleFits(parts.indexHandle)
    requires file1 <= file2 <= file3 && file == file3 + EncodeFooter(parts.metaindexHandle, parts.indexHandle)
    requires Represents(rank) && HasFilter(crc, file1, parts.sections, parts.filter)
    requires HasMeta(crc, file2, parts.filter, parts.meta, parts.metaindexHandle, parts.metaContents)
    requires Finished(rank, crc, file3, parts.sections, parts.index, parts.indexHandle, parts.indexContents)
    ensures Written(rank, crc, file, parts)
  {
    hide StoredAt, SectionFiltered, FilterBlock.EncodesFilters, BlockBuilder.Encodes, Represents, IndexOf, InOrder, SortedRows, AllStored, EncodeFooter;
    var footer := EncodeFooter(parts.metaindexHandle, parts.indexHandle);
    assert file[|file| - FOOTER..] == footer;
    assert file1 <= file && file2 <= file && file3 <= file;
    if parts.filter.Filter? {
      StoredKept(crc, file1, file, parts.filter.handle, parts.filter.contents);
    }
    StoredKept(crc, file2, file, parts.metaindexHandle, parts.metaContents);
    StoredKept(crc, file3, file, parts.indexHandle, parts.indexContents);
    StillStored(crc, file3, footer, parts.sections);
  }

  lemma TableDone(rank: Rank, crc: Crc, flushed: Bytes, middle: Bytes, sections: seq<Section>, index: Layout, contents: Bytes)
    requires IndexOf(sections, index) && InOrder(rank, sections) && SortedRows(index, rank)
    requires AllStored(crc, flushed, sections) && BlockBuilder.Encodes(index, contents)
    ensures
      var before := flushed + middle;
      Finished(rank, crc, before + contents + Trailer(crc, contents), sections, index, BlockHandle(|before|, |contents|), contents)
  {
    hide IndexOf, InOrder, SortedRows, AllStored, StoredAt, BlockBuilder.Encodes;
    var before, tail := flushed + middle, contents + Trailer(crc, contents);
    RawStored(crc, before, contents);
    assert before + contents + Trailer(crc, contents) == flushed + (middle + tail);
    StillStored(crc, flushed, middle + tail, sections);
  }

  /** The sections and the index of a finished table. */
  ghost predicate Finished(rank: Rank, crc: Crc, file: Bytes, sections: seq<Section>, index: Layout, handle: BlockHandle, contents: Bytes) {
    && IndexOf(sections, index) && InOrder(rank, sections) && SortedRows(index, rank)
    && AllStored(crc, file, sections)
    && StoredAt(crc, file, handle, contents) && BlockBuilder.Encodes(index, contents)
  }

  lemma AllFiltered(st: State, groups: seq<seq<Bytes>>, pending: seq<Bytes>, offset: nat, all: seq<seq<Bytes>>)
    requires GoodFilters(st, groups, pending, offset)
    requires all == groups + if pending == [] then [] else [pending]
    ensures forall i :: 0 <= i < |st.sections| ==> SectionFiltered(st.sections[i], all)
  {
    forall i | 0 <= i < |st.sections| ensures SectionFiltered(st.sections[i], all) {
      var s := st.sections[i];
      forall r | r in s.lay.rows ensures InGroup(all, s.handle.offset / FilterBlock.BASE, r.key) {
        assert WillCover(groups, pending, s.handle.offset / FilterBlock.BASE, r.key);
      }
    }
  }

  /** With the last separator in place the index is complete. */
  lemma IndexDone(rank: Rank, crc: Crc, file: Bytes, st: State, sep: Key, index: Layout)
    requires Good(rank, crc, file, st) && st.lay.rows == []
    requires st.pending ==> sep == st.lastKey || KeyLess(st.lastKey, sep)
    requires index.rows == st.entries + if st.pending then [Row(sep, EncodeHandle(st.handle))] else []
    ensures IndexOf(st.sections, index) && InOrder(rank, st.sections) && AllStored(crc, file, st.sections)
  {
    hide InOrder, AllStored, RowKeys, Indexed, KeysOf, EncodeHandle, RowsBelow, KeyLess;
    IndexComplete(st.sections, st.entries, sep, index.rows[|st.entries|..], st.lastKey, index);
  }

  lemma IndexComplete(sections: seq<Section>, entries: seq<Row>, sep: Key, more: seq<Row>, last: Key, index: Layout)
    requires AllKeys(sections) && Indexed(sections, [], entries) && index.rows == entries + more
    requires if |entries| == |sections| then more == [] else
      && |entries| == |sections| - 1 && IsNewest(sections, [], last) && (sep == last || KeyLess(last, sep))
      && more == [Row(sep, EncodeHandle(sections[|entries|].handle))] && HandleFits(sections[|entries|].handle)
    requires |entries| == |sections| ==> sections == []
    ensures IndexOf(sections, index)
  {
    hide EncodeHandle, KeyLess;
    forall i | 0 <= i < |sections| ensures IndexKeyOk(sections, index, i) {
      if i < |entries| {
        assert EntryOk(sections, [], entries[i], i);
      }
    }
  }

  /** The next position is not before the window being filled. */
  lemma FilterWindow(st: State, groups: seq<seq<Bytes>>, pending: seq<Bytes>, offset: nat, offset': nat)
    requires GoodFilters(st, groups, pending, offset) && offset <= offset'
    ensures |groups| <= offset' / FilterBlock.BASE
  {
  }

  lemma GroupsCount(st: State, groups: seq<seq<Bytes>>, pending: seq<Bytes>, offset: nat)
    requires GoodFilters(st, groups, pending, offset)
    ensures 4 * |groups| <= offset / 512
  {
  }

  lemma FiltersFlushed(st: State, groups: seq<seq<Bytes>>, pending: seq<Bytes>, s: Section, offset: nat,
                       groups': seq<seq<Bytes>>, pending': seq<Bytes>, offset': nat, st': State)
    requires GoodFilters(st, groups, pending, offset) && st.lay.rows != []
    requires s.lay == st.lay && s.handle.offset == offset && st'.sections == st.sections + [s] && st'.lay.rows == []
    requires |groups'| == offset' / FilterBlock.BASE && |groups| <= |groups'|
    requires |groups'| == |groups| ==> groups' == groups && pending' == pending
    requires |groups'| > |groups| ==> groups' == groups + [pending] + seq(|groups'| - |groups| - 1, _ => [])
    ensures GoodFilters(st', groups', pending', offset')
  {
    FiltersMove(groups, pending, st.sections, st.lay.rows, s, offset, groups', pending', offset');
  }
}
