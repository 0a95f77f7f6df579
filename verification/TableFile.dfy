/** Table files from end to end: rows are built into a file, the file is opened from its footer,
    and a search in it answers as a search of the rows would. */
module TableFile {
  import opened Coding
  import opened Block
  import opened Format
  import opened Separators
  import opened Table
  import opened TableBuilder
  import opened KeyRank
  import BlockBuilder
  import Bloom
  import FilterBlock

  // ----- opening -----

  /** A filter policy that a table is opened with. */
  datatype Policy = NoPolicy | Policy(name: Bytes, hash: Bloom.Hash)

  /** Policies of one name are one policy. */
  ghost predicate Agrees(policy: Policy, filter: FilterPart) {
    policy.Policy? && filter.Filter? && policy.name == filter.name ==> policy.hash == filter.hash
  }

  /** The filters are those of the file, if it has some that are called for. */
  ghost predicate FiltersOf(reader: FilterBlock.Reader?, filter: FilterPart) {
    reader != null ==> filter.Filter? && reader.Valid() && reader.Reads(filter.groups)
  }

  method ReadFilter(crc: Crc, paranoid: bool, file: Bytes, handleValue: Bytes, hash: Bloom.Hash, ghost filter: FilterPart, ghost sections: seq<Section>)
    returns (reader: FilterBlock.Reader?)
    ensures reader != null ==> reader.Valid()
    ensures filter.Filter? && HasFilter(crc, file, sections, filter) && hash == filter.hash && handleValue == EncodeHandle(filter.handle) ==>
              FiltersOf(reader, filter)
  {
    hide EncodeHandle, StoredAt, FilterBlock.EncodesFilters, SectionFiltered;
    ghost var h, stored, groups := BlockHandle(0, 0), [], [];
    if filter.Filter? {
      h, stored, groups := filter.handle, filter.contents, filter.groups;
    }
    var ok, handle, _ := DecodeHandle(handleValue, h);
    if !ok {
      return null;
    }
    var contents;
    ok, contents := ReadBlock(crc, paranoid, file, handle, stored);
    if !ok {
      return null;
    }
    reader := new FilterBlock.Reader(hash, contents, groups);
  }

  method ReadMeta(crc: Crc, paranoid: bool, file: Bytes, metaindexHandle: BlockHandle, policy: Policy, ghost parts: Parts)
    returns (reader: FilterBlock.Reader?)
    ensures reader != null ==> reader.Valid()
    ensures
      && HasMeta(crc, file, parts.filter, parts.meta, metaindexHandle, parts.metaContents)
      && HasFilter(crc, file, parts.sections, parts.filter) && Agrees(policy, parts.filter)
      ==> FiltersOf(reader, parts.filter)
  {
    hide HasFilter, StoredAt, BlockBuilder.Encodes, Iter.Sound, Iter.At, EncodeHandle, FiltersOf, SortedRows, Iter.Lands;
    NoReader(parts.filter);
    if policy.NoPolicy? {
      return null;
    }
    ghost var good := HasMeta(crc, file, parts.filter, parts.meta, metaindexHandle, parts.metaContents);
    var ok, contents := ReadBlock(crc, paranoid, file, metaindexHandle, parts.metaContents);
    if !ok {
      return null;
    }
    var it := BlockBuilder.NewIterator(ByteRank, contents, parts.meta);
    if it == null {
      return null;
    }
    var key := FilterKey(policy.name);
    if good {
      OneRowSorted(parts.meta);
    }
    ghost var pos := it.Seek(key);
    if good {
      MetaFound(it, key, pos, parts.filter);
    }
    if it.current < it.restarts && it.key == key {
      SameName(policy.name, parts.filter);
      reader := ReadFilter(crc, paranoid, file, it.value, policy.hash, parts.filter, parts.sections);
    } else {
      reader := null;
    }
  }

  lemma NoReader(filter: FilterPart)
    ensures FiltersOf(null, filter)
  {
  }

  lemma OneRowSorted(lay: Layout)
    requires |lay.rows| <= 1
    ensures SortedRows(lay, ByteRank)
  {
  }

  lemma SameName(name: Bytes, filter: FilterPart)
    ensures filter.Filter? && FilterKey(name) == FilterKey(filter.name) ==> name == filter.name
  {
    if filter.Filter? {
      assert FilterKey(name)[7..] == name && FilterKey(filter.name)[7..] == filter.name;
    }
  }

  /** Where the seek in the metaindex ends. */
  lemma MetaFound(it: Iter, key: Bytes, pos: nat, filter: FilterPart)
    requires it.Valid() && it.Sound() && it.lay.rows == MetaRows(filter) && it.Lands(key, pos) && it.At(pos)
    ensures it.current < it.restarts ==> filter.Filter? && it.key == FilterKey(filter.name) && it.value == EncodeHandle(filter.handle)
  {
    hide Iter.Sound, Iter.At;
    it.AtOffset(pos);
    if pos < |it.lay.rows| {
      it.AtRow(pos);
    }
  }

  /** Table::Open: footer, index block, and the filters that the metaindex names. */
  method Open(rank: Rank, crc: Crc, paranoid: bool, verifyChecksums: bool, file: Bytes, policy: Policy, ghost parts: Parts) returns (table: Table?)
    ensures table != null ==> table.Valid() && |file| >= FOOTER
    ensures Written(rank, crc, file, parts) && Agrees(policy, parts.filter) ==>
              table != null && table.Sound() && table.sections == parts.sections && table.rank == rank
  {
    hide Written, HasFilter, HasMeta, EncodeFooter, FiltersOf, Agrees, StoredAt, Table.Sound, EncodeHandle;
    ghost var good := Written(rank, crc, file, parts);
    if good {
      PartsThere(rank, crc, file, parts);
    }
    if |file| < FOOTER {
      return null;
    }
    var ok, metaindexHandle, indexHandle := DecodeFooter(file[|file| - FOOTER..], parts.metaindexHandle, parts.indexHandle);
    if !ok {
      return null;
    }
    var indexContents;
    ok, indexContents := ReadBlock(crc, paranoid, file, indexHandle, parts.indexContents);
    if !ok {
      return null;
    }
    var filter := ReadMeta(crc, paranoid, file, metaindexHandle, policy, parts);
    ghost var groups := if parts.filter.Filter? then parts.filter.groups else [];
    table := new Table(rank, crc, verifyChecksums, file, indexContents, filter, parts.sections, parts.index, groups);
    if good && Agrees(policy, parts.filter) {
      IsSound(table, parts);
    }
  }

  lemma PartsThere(rank: Rank, crc: Crc, file: Bytes, parts: Parts)
    requires Written(rank, crc, file, parts)
    ensures |file| >= FOOTER && HandleFits(parts.metaindexHandle) && HandleFits(parts.indexHandle)
    ensures file[|file| - FOOTER..] == EncodeFooter(parts.metaindexHandle, parts.indexHandle)
    ensures StoredAt(crc, file, parts.indexHandle, parts.indexContents) && HasFilter(crc, file, parts.sections, parts.filter)
    ensures HasMeta(crc, file, parts.filter, parts.meta, parts.metaindexHandle, parts.metaContents)
  {
    hide StoredAt, EncodeFooter;
  }

  lemma IsSound(table: Table, parts: Parts)
    requires Written(table.rank, table.crc, table.file, parts) && FiltersOf(table.filter, parts.filter)
    requires table.indexContents == parts.indexContents && table.sections == parts.sections && table.index == parts.index
    requires parts.filter.Filter? ==> table.groups == parts.filter.groups
    ensures table.Sound()
  {
    hide Represents, IndexOf, InOrder, SortedRows, BlockBuilder.Encodes, StoredAt, SectionStored, SectionFiltered, EncodeFooter, HasMeta, FilterBlock.Reader.Reads;
  }

  // ----- the rows in one list -----

  /** The first row at or after `k`. */
  ghost predicate FirstRow(rows: seq<Row>, k: Key, n: nat)
    requires RowKeys(rows)
  {
    && n < |rows| && !LessThan(rows[n], k) && forall m :: 0 <= m < n ==> LessThan(rows[m], k)
  }

  ghost predicate LessThan(r: Row, k: Key)
  {
    |r.key| >= 8 && KeyLess(r.key, k)
  }

  ghost function Start(sections: seq<Section>, i: nat): nat
    requires i <= |sections|
  {
    |RowsOf(sections[..i])|
  }

  lemma {:induction false} SectionAt(sections: seq<Section>, i: nat)
    requires i < |sections|
    ensures
      var rows := sections[i].lay.rows;
      Start(sections, i) + |rows| <= |RowsOf(sections)| && RowsOf(sections)[Start(sections, i)..Start(sections, i) + |rows|] == rows
  {
    var n := |sections| - 1;
    var front := sections[..n];
    if i < n {
      SectionAt(front, i);
      assert front[..i] == sections[..i] && front[i] == sections[i];
      var a, b := Start(sections, i), Start(sections, i) + |sections[i].lay.rows|;
      assert RowsOf(sections)[a..b] == RowsOf(front)[a..b];
    }
  }

  /** Every row of the list is a row of a section. */
  lemma {:induction false} RowIsIn(sections: seq<Section>, n: nat) returns (i: nat, p: nat)
    requires n < |RowsOf(sections)|
    ensures i < |sections| && p < |sections[i].lay.rows| && n == Start(sections, i) + p
  {
    var m := |sections| - 1;
    var front := sections[..m];
    if n < |RowsOf(front)| {
      i, p := RowIsIn(front, n);
      assert front[..i] == sections[..i];
    } else {
      i, p := m, n - |RowsOf(front)|;
    }
  }

  lemma RowAt(sections: seq<Section>, i: nat, p: nat)
    requires i < |sections| && p < |sections[i].lay.rows|
    ensures Start(sections, i) + p < |RowsOf(sections)| && RowsOf(sections)[Start(sections, i) + p] == sections[i].lay.rows[p]
  {
    SectionAt(sections, i);
    var a, b := Start(sections, i), Start(sections, i) + |sections[i].lay.rows|;
    assert RowsOf(sections)[a..b][p] == RowsOf(sections)[a + p];
  }

  lemma {:induction false} StartsGrow(sections: seq<Section>, i: nat, j: nat)
    requires i < j <= |sections|
    ensures Start(sections, i) + |sections[i].lay.rows| <= Start(sections, j)
  {
    var n := j - 1;
    assert sections[..j][..n] == sections[..n];
    if i < n {
      StartsGrow(sections, i, n);
    }
  }

  lemma RowsAreKeys(sections: seq<Section>)
    requires AllKeys(sections)
    ensures RowKeys(RowsOf(sections))
  {
    forall r | r in RowsOf(sections) ensures |r.key| >= 8 {
      var n :| 0 <= n < |RowsOf(sections)| && RowsOf(sections)[n] == r;
      var i, p := RowIsIn(sections, n);
      RowAt(sections, i, p);
      assert sections[i].lay.rows[p] in sections[i].lay.rows;
    }
  }

  /** The first row in the sections is the first in the list. */
  lemma FirstIsFirst(rank: Rank, sections: seq<Section>, k: Key, i: nat, p: nat)
    requires Represents(rank) && AllKeys(sections) && FirstAtOrAfter(rank, sections, k, i, p)
    ensures RowKeys(RowsOf(sections)) && FirstRow(RowsOf(sections), k, Start(sections, i) + p)
    ensures RowsOf(sections)[Start(sections, i) + p] == sections[i].lay.rows[p]
  {
    hide Represents, KeyLess;
    RowsAreKeys(sections);
    RowAt(sections, i, p);
    var rows := RowsOf(sections);
    RankIsLess(rank, sections[i].lay.rows[p], k);
    forall m | 0 <= m < Start(sections, i) + p ensures LessThan(rows[m], k) {
      var j, q := RowIsIn(sections, m);
      RowAt(sections, j, q);
      if j > i {
        StartsGrow(sections, i, j);
      } else if j < i {
        StartsGrow(sections, j, i);
        assert rows[m] in sections[j].lay.rows;
      }
      assert rows[m] in rows;
      RankIsLess(rank, rows[m], k);
    }
  }

  lemma RankIsLess(rank: Rank, r: Row, k: Key)
    requires Represents(rank) && |r.key| >= 8
    ensures rank(r.key) < rank(k) <==> LessThan(r, k)
  {
    RankOrder(rank, r.key, k);
  }

  /** ... and the other way round. */
  lemma FirstIsThere(rank: Rank, sections: seq<Section>, k: Key, n: nat) returns (i: nat, p: nat)
    requires Represents(rank) && AllKeys(sections) && RowKeys(RowsOf(sections)) && FirstRow(RowsOf(sections), k, n)
    ensures FirstAtOrAfter(rank, sections, k, i, p) && RowsOf(sections)[n] == sections[i].lay.rows[p]
  {
    hide Represents, KeyLess;
    var rows := RowsOf(sections);
    i, p := RowIsIn(sections, n);
    RowAt(sections, i, p);
    assert rows[n] in rows;
    RankIsLess(rank, rows[n], k);
    forall q | 0 <= q < p ensures rank(sections[i].lay.rows[q].key) < rank(k) {
      RowAt(sections, i, q);
      RankIsLess(rank, sections[i].lay.rows[q], k);
    }
    forall j, r | 0 <= j < i && r in sections[j].lay.rows ensures rank(r.key) < rank(k) {
      var q :| 0 <= q < |sections[j].lay.rows| && sections[j].lay.rows[q] == r;
      RowAt(sections, j, q);
      StartsGrow(sections, j, i);
      RankIsLess(rank, r, k);
    }
  }

  lemma ReportedRow(table: Table, rows: seq<Row>, k: Key, r: Row)
    requires table.Sound() && RowsOf(table.sections) == rows && RowKeys(rows) && table.Reported(k, r)
    ensures exists n: nat :: FirstRow(rows, k, n) && rows[n] == r
  {
    hide FirstRow, FirstAtOrAfter, Represents, Table.Sound, Table.Reported;
    table.AboutSound();
    SoundRank(table);
    var i, p := ReportedAt(table, k, r);
    FirstIsFirst(table.rank, table.sections, k, i, p);
  }

  lemma ReportedAt(table: Table, k: Key, r: Row) returns (i: nat, p: nat)
    requires table.Reported(k, r)
    ensures FirstAtOrAfter(table.rank, table.sections, k, i, p)
    ensures i < |table.sections| && p < |table.sections[i].lay.rows| && table.sections[i].lay.rows[p] == r
  {
    i, p :| FirstAtOrAfter(table.rank, table.sections, k, i, p) && table.sections[i].lay.rows[p] == r;
  }

  lemma SoundRank(table: Table)
    requires table.Sound()
    ensures Represents(table.rank)
  {
    hide Represents;
  }

  ghost function KeyAt(rows: seq<Row>, n: nat): Key
    requires RowKeys(rows)
  {
    if n < |rows| then
      assert rows[n] in rows;
      rows[n].key
    else
      [0, 0, 0, 0, 0, 0, 0, 0]
  }

  lemma SoughtRow(table: Table, rows: seq<Row>, k: Key, n: nat)
    requires table.Sound() && RowsOf(table.sections) == rows && RowKeys(rows) && FirstRow(rows, k, n)
    requires UserKey(KeyAt(rows, n)) == UserKey(k)
    ensures AllKeys(table.sections) && table.Sought(k)
  {
    hide FirstAtOrAfter, Represents, Table.Sound, UserKey;
    table.AboutSound();
    SoundRank(table);
    var i, p := FirstIsThere(table.rank, table.sections, k, n);
    InRange(table.rank, table.sections, k, i, p);
    assert RowKey(table.sections, i, p) == KeyAt(rows, n);
  }

  lemma InRange(rank: Rank, sections: seq<Section>, k: Key, i: nat, p: nat)
    requires FirstAtOrAfter(rank, sections, k, i, p)
    ensures i < |sections| && p < |sections[i].lay.rows|
  {
  }

  // ----- from rows to answers -----

  /** The internal key comparator as a rank. */
  function KeyOrder(k: Bytes): real {
    if |k| < 8 then 0.0 else KeyRankOf(k)
  }

  lemma KeyOrderRepresents()
    ensures Represents(KeyOrder)
  {
    hide KeyRankOf, KeyLess;
    forall a: Key, b: Key ensures KeyOrder(a) < KeyOrder(b) <==> KeyLess(a, b) {
      KeyRankOrders(a, b);
    }
  }

  /** Internal keys, each after the one before. */
  ghost predicate Ascending(rows: seq<Row>) {
    RowKeys(rows) && forall i :: 0 < i < |rows| ==> After(rows[i - 1], rows[i])
  }

  ghost predicate After(r: Row, q: Row) {
    |r.key| >= 8 && |q.key| >= 8 && KeyLess(r.key, q.key)
  }

  /** No less than the blocks of a table of these rows take up. */
  ghost function Weight(rows: seq<Row>): nat {
    if rows == [] then 0 else
      var r := rows[|rows| - 1];
      Weight(rows[..|rows| - 1]) + 2 * |r.key| + |r.value| + 64
  }

  /** Blocks of a table of these rows stay within 32-bit offsets. */
  ghost predicate FitsTable(rows: seq<Row>, policy: Policy, bitsPerKey: nat) {
    && Weight(rows) + 200 < LIMIT
    && (policy.Policy? ==> |policy.name| < LIMIT - 100 && |rows| * (bitsPerKey + 16) + Weight(rows) / 512 + 200 < LIMIT)
  }

  lemma {:induction false} WeightGrows(rows: seq<Row>, i: nat)
    requires i < |rows|
    ensures Weight(rows[..i + 1]) == Weight(rows[..i]) + 2 * |rows[i].key| + |rows[i].value| + 64
    ensures Weight(rows[..i + 1]) <= Weight(rows)
    decreases |rows|
  {
    assert rows[..i + 1][..i] == rows[..i];
    var n := |rows| - 1;
    if i < n {
      WeightGrows(rows[..n], i);
      assert rows[..n][..i + 1] == rows[..i + 1];
    } else {
      assert rows[..i + 1] == rows;
    }
  }

  lemma SharesGrow(i: nat, n: nat, share: nat)
    requires i < n
    ensures i * share + share == (i + 1) * share <= n * share
  {
    Product(n - i - 1, share);
    assert n * share == (i + 1) * share + (n - i - 1) * share;
  }

  lemma Product(a: nat, b: nat)
    ensures a * b >= 0
  {
  }

  method Build(rows: seq<Row>, crc: Crc, blockSize: nat, interval: nat, policy: Policy, bitsPerKey: nat, probes: Byte)
    returns (file: Bytes, ghost parts: Parts)
    requires Ascending(rows) && interval >= 1 && 1 <= probes <= Bloom.MAX_PROBES && FitsTable(rows, policy, bitsPerKey)
    ensures Written(KeyOrder, crc, file, parts) && RowsOf(parts.sections) == rows
    ensures if policy.NoPolicy? then parts.filter.NoFilter? else parts.filter.Filter? && parts.filter.name == policy.name && parts.filter.hash == policy.hash
  {
    hide Written, RowsOf, Represents, Builder.Valid, Builder.Load, Builder.OpenLoad, Builder.FilterLoad, Builder.Contents, Weight, KeyLess;
    KeyOrderRepresents();
    var filterBlock: FilterBlock.Builder? := null;
    var name: Bytes := [];
    if policy.Policy? {
      filterBlock := new FilterBlock.Builder(policy.hash, bitsPerKey, probes);
      name := policy.name;
    }
    var builder := new Builder(KeyOrder, crc, blockSize, interval, filterBlock, name);
    ghost var share := builder.KeyShare();
    assert builder.FilterLoad() <= 0 by { NoLoad(builder); }
    assert Weight(rows[..0]) == 0 by { NoWeight(rows[..0]); }
    for i := 0 to |rows|
      invariant fresh(builder) && fresh(builder.Footprint()) && builder.Valid() && !builder.closed
      invariant builder.Contents() == rows[..i] && (builder.numEntries > 0 ==> i > 0 && builder.lastKey == rows[i - 1].key)
      invariant builder.Load() <= 16 + Weight(rows[..i]) && builder.OpenLoad() <= 4 + Weight(rows[..i])
      invariant Weight(rows[..i]) <= Weight(rows) && builder.FilterLoad() <= i * share
    {
      WeightGrows(rows, i);
      SharesGrow(i, |rows|, share);
      assert rows[i] in rows && (i > 0 ==> After(rows[i - 1], rows[i]));
      builder.FileIsSmall();
      builder.Add(rows[i].key, rows[i].value);
      assert rows[..i + 1] == rows[..i] + [rows[i]];
    }
    assert rows[..|rows|] == rows;
    builder.FileIsSmall();
    parts := builder.Finish();
    file := builder.file;
  }

  lemma NoWeight(rows: seq<Row>)
    requires rows == []
    ensures Weight(rows) == 0
  {
  }

  lemma NoLoad(builder: Builder)
    requires builder.filterBlock != null ==> builder.filterBlock.Load() == 0
    ensures builder.FilterLoad() <= 0
  {
  }

  /** Built, opened and searched: what is reported is the first row at or after the key, and
      that row is reported if it has the user key sought, with and without filters. */
  method BuildAndGet(rows: seq<Row>, crc: Crc, blockSize: nat, interval: nat, policy: Policy, bitsPerKey: nat, probes: Byte,
                     paranoid: bool, verifyChecksums: bool, readPolicy: Policy, k: Key)
    returns (found: bool, key: Bytes, value: Bytes)
    requires Ascending(rows) && interval >= 1 && 1 <= probes <= Bloom.MAX_PROBES && FitsTable(rows, policy, bitsPerKey)
    requires policy.Policy? && readPolicy.Policy? && policy.name == readPolicy.name ==> policy.hash == readPolicy.hash
    ensures found ==> exists n: nat :: FirstRow(rows, k, n) && rows[n] == Row(key, value)
    ensures forall n: nat :: FirstRow(rows, k, n) && UserKey(KeyAt(rows, n)) == UserKey(k) ==> found
  {
    hide Written, RowsOf, Represents, Table.Sound, FirstRow, Table.Reported, Table.Sought, FitsTable;
    var file;
    ghost var parts;
    file, parts := Build(rows, crc, blockSize, interval, policy, bitsPerKey, probes);
    var table := Open(KeyOrder, crc, paranoid, verifyChecksums, file, readPolicy, parts);
    found, key, value := table.InternalGet(k);
    if found {
      ReportedRow(table, rows, k, Row(key, value));
    }
    forall n: nat | FirstRow(rows, k, n) && UserKey(KeyAt(rows, n)) == UserKey(k) ensures found {
      SoughtRow(table, rows, k, n);
    }
  }
}
