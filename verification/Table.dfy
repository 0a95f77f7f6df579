/** Sorted tables: data blocks found through shortened index keys and Bloom filters. */
module Table {
  import opened Coding
  import opened Block
  import opened Format
  import opened Separators
  import BlockBuilder
  import Bloom
  import FilterBlock

  /** The comparator's order on encoded internal keys, as places on a line. */
  ghost predicate Represents(rank: Rank) {
    forall a: Key, b: Key :: rank(a) < rank(b) <==> KeyLess(a, b)
  }

  // ----- what a table holds -----

  /** A data block and where it is. */
  datatype Section = Section(lay: Layout, handle: BlockHandle)

  ghost predicate KeysOf(rows: seq<Row>) {
    rows != [] && forall r :: r in rows ==> |r.key| >= 8
  }

  ghost function FirstKey(rows: seq<Row>): Key
    requires KeysOf(rows)
  {
    rows[0].key
  }

  ghost function LastKey(rows: seq<Row>): Key
    requires KeysOf(rows)
  {
    rows[|rows| - 1].key
  }

  ghost predicate AllKeys(sections: seq<Section>) {
    forall i :: 0 <= i < |sections| ==> KeysOf(sections[i].lay.rows)
  }

  ghost predicate RowsBelow(rank: Rank, a: seq<Row>, b: seq<Row>) {
    forall r, q :: r in a && q in b ==> rank(r.key) < rank(q.key)
  }

  ghost predicate InOrder(rank: Rank, sections: seq<Section>) {
    && (forall i :: 0 <= i < |sections| ==> SortedRows(sections[i].lay, rank))
    && forall i, j :: 0 <= i < j < |sections| ==> RowsBelow(rank, sections[i].lay.rows, sections[j].lay.rows)
  }

  /** The index key of section `i` separates it from the next section. */
  ghost predicate IndexKeyOk(sections: seq<Section>, index: Layout, i: nat)
    requires AllKeys(sections) && i < |sections| && |index.rows| == |sections|
  {
    && |index.rows[i].key| >= 8
    && EncodeHandle(sections[i].handle) == index.rows[i].value && HandleFits(sections[i].handle)
    && var last, sep: Key := LastKey(sections[i].lay.rows), index.rows[i].key;
       if i + 1 < |sections| then Separates(last, sep, FirstKey(sections[i + 1].lay.rows))
       else sep == last || KeyLess(last, sep)
  }

  ghost predicate IndexOf(sections: seq<Section>, index: Layout) {
    && AllKeys(sections) && |index.rows| == |sections|
    && forall i :: 0 <= i < |sections| ==> IndexKeyOk(sections, index, i)
  }

  /** Row `p` of section `i` is the first in the table at or after `k`. */
  ghost predicate FirstAtOrAfter(rank: Rank, sections: seq<Section>, k: Key, i: nat, p: nat) {
    && i < |sections| && p < |sections[i].lay.rows|
    && rank(sections[i].lay.rows[p].key) >= rank(k)
    && (forall q :: 0 <= q < p ==> rank(sections[i].lay.rows[q].key) < rank(k))
    && forall j, r :: 0 <= j < i && r in sections[j].lay.rows ==> rank(r.key) < rank(k)
  }

  /** The index row a seek lands on. */
  ghost predicate LandsOn(rank: Rank, lay: Layout, k: Bytes, pos: nat) {
    && pos <= |lay.rows|
    && (forall i :: 0 <= i < pos ==> rank(lay.rows[i].key) < rank(k))
    && (pos < |lay.rows| ==> rank(lay.rows[pos].key) >= rank(k))
  }

  lemma LastIsGreatest(rank: Rank, lay: Layout, r: Row)
    requires SortedRows(lay, rank) && KeysOf(lay.rows) && r in lay.rows
    ensures rank(r.key) <= rank(LastKey(lay.rows))
  {
    var i :| 0 <= i < |lay.rows| && lay.rows[i] == r;
  }

  /** Everything in the sections before the one the index names is below the seek key. */
  lemma EarlierAreBelow(rank: Rank, sections: seq<Section>, index: Layout, k: Key, pos: nat, j: nat, r: Row)
    requires Represents(rank) && IndexOf(sections, index) && InOrder(rank, sections) && LandsOn(rank, index, k, pos)
    requires j < pos && r in sections[j].lay.rows
    ensures rank(r.key) < rank(k)
  {
    assert IndexKeyOk(sections, index, j);
    var last, sep: Key := LastKey(sections[j].lay.rows), index.rows[j].key;
    LastIsGreatest(rank, sections[j].lay, r);
    assert sep == last || KeyLess(last, sep);
    assert KeyLess(sep, k);
  }

  /** If the sought user key is there at all, it is in the section the index names. */
  lemma AnswerIsInSection(rank: Rank, sections: seq<Section>, index: Layout, k: Key, pos: nat, i: nat, p: nat)
    requires Represents(rank) && IndexOf(sections, index) && InOrder(rank, sections) && LandsOn(rank, index, k, pos)
    requires FirstAtOrAfter(rank, sections, k, i, p)
    ensures pos <= i < |sections|
    ensures UserKey(RowKey(sections, i, p)) == UserKey(k) ==> i == pos
  {
    if i < pos {
      EarlierAreBelow(rank, sections, index, k, pos, i, sections[i].lay.rows[p]);
    } else if pos < i && UserKey(RowKey(sections, i, p)) == UserKey(k) {
      IsNextFirst(rank, sections, k, pos, i, p);
      InGap(rank, sections, index, k, pos);
    }
  }

  ghost function RowKey(sections: seq<Section>, i: nat, p: nat): Key
    requires AllKeys(sections) && i < |sections| && p < |sections[i].lay.rows|
  {
    assert sections[i].lay.rows[p] in sections[i].lay.rows;
    sections[i].lay.rows[p].key
  }

  lemma IsNextFirst(rank: Rank, sections: seq<Section>, k: Key, pos: nat, i: nat, p: nat)
    requires AllKeys(sections) && InOrder(rank, sections) && pos < i && FirstAtOrAfter(rank, sections, k, i, p)
    ensures pos + 1 < |sections|
    ensures rank(LastKey(sections[pos].lay.rows)) < rank(k)
  {
    assert sections[pos].lay.rows[|sections[pos].lay.rows| - 1] in sections[pos].lay.rows;
  }

  lemma InGap(rank: Rank, sections: seq<Section>, index: Layout, k: Key, pos: nat)
    requires Represents(rank) && IndexOf(sections, index) && InOrder(rank, sections)
    requires pos + 1 < |sections| && rank(index.rows[pos].key) >= rank(k) && rank(LastKey(sections[pos].lay.rows)) < rank(k)
    ensures UserKey(k) != UserKey(FirstKey(sections[pos + 1].lay.rows))
    ensures rank(k) < rank(FirstKey(sections[pos + 1].lay.rows))
  {
    assert IndexKeyOk(sections, index, pos);
    var a, b := sections[pos].lay.rows, sections[pos + 1].lay.rows;
    assert a[|a| - 1] in a && b[0] in b && RowsBelow(rank, a, b);
    NoKeyInGap(LastKey(a), index.rows[pos].key, FirstKey(b), k);
  }

  // ----- reading -----

  /** The bytes of a section's block. */
  ghost predicate SectionStored(crc: Crc, file: Bytes, s: Section) {
    exists contents :: StoredAt(crc, file, s.handle, contents) && BlockBuilder.Encodes(s.lay, contents)
  }

  /** Every user key of a section is in the filter for the place its block starts. */
  ghost predicate SectionFiltered(s: Section, groups: seq<seq<Bytes>>) {
    KeysOf(s.lay.rows) &&
    forall r :: r in s.lay.rows ==> InGroup(groups, s.handle.offset / FilterBlock.BASE, r.key)
  }

  ghost predicate InGroup(groups: seq<seq<Bytes>>, i: nat, key: Bytes)
    requires |key| >= 8
  {
    i < |groups| && UserKey(key) in groups[i]
  }

  class Table {
    const rank: Rank
    const crc: Crc
    const verifyChecksums: bool
    const file: Bytes
    const indexContents: Bytes
    const filter: FilterBlock.Reader?
    ghost const sections: seq<Section>
    ghost const index: Layout
    ghost const groups: seq<seq<Bytes>>

    ghost predicate Valid() {
      filter != null ==> filter.Valid()
    }

    /** The file holds the sections, and the index and the filters are theirs. */
    ghost predicate Sound() {
      && Represents(rank) && IndexOf(sections, index) && InOrder(rank, sections)
      && SortedRows(index, rank) && BlockBuilder.Encodes(index, indexContents)
      && (forall i :: 0 <= i < |sections| ==> SectionStored(crc, file, sections[i]))
      && (filter != null ==>
            filter.Valid() && filter.Reads(groups)
            && forall i :: 0 <= i < |sections| ==> SectionFiltered(sections[i], groups))
    }

    constructor (rank: Rank, crc: Crc, verifyChecksums: bool, file: Bytes, indexContents: Bytes, filter: FilterBlock.Reader?,
                 ghost sections: seq<Section>, ghost index: Layout, ghost groups: seq<seq<Bytes>>)
      requires filter != null ==> filter.Valid()
      ensures Valid() && this.rank == rank && this.crc == crc && this.file == file && this.indexContents == indexContents
      ensures this.filter == filter && this.sections == sections && this.index == index && this.groups == groups
    {
      this.rank, this.crc, this.verifyChecksums, this.file, this.indexContents, this.filter :=
        rank, crc, verifyChecksums, file, indexContents, filter;
      this.sections, this.index, this.groups := sections, index, groups;
    }

    method BlockReader(handleValue: Bytes, ghost s: Section) returns (it: Iter?)
      ensures it != null ==> it.Valid() && it.rank == rank && it.lay == s.lay && !it.corrupt && !it.wild && fresh(it)
      ensures HandleFits(s.handle) && handleValue == EncodeHandle(s.handle) && SectionStored(crc, file, s) ==> it != null && it.Sound()
    {
      ghost var stored := [];
      if SectionStored(crc, file, s) {
        stored :| StoredAt(crc, file, s.handle, stored) && BlockBuilder.Encodes(s.lay, stored);
      }
      var ok, handle, _ := DecodeHandle(handleValue, s.handle);
      if !ok {
        return null;
      }
      var contents;
      ok, contents := ReadBlock(crc, verifyChecksums, file, handle, stored);
      if !ok {
        return null;
      }
      it := BlockBuilder.NewIterator(rank, contents, s.lay);
    }

    /** The first entry at or after `k` is this one. */
    ghost predicate Reported(k: Key, r: Row) {
      exists i: nat, p: nat :: FirstAtOrAfter(rank, sections, k, i, p) && sections[i].lay.rows[p] == r
    }

    /** The first entry at or after `k` has the user key sought. */
    ghost predicate Sought(k: Key)
      requires AllKeys(sections)
    {
      exists i: nat, p: nat :: FirstAtOrAfter(rank, sections, k, i, p) && UserKey(RowKey(sections, i, p)) == UserKey(k)
    }

    /** Reports an entry whenever the first one at or after `k` in the whole table has the user
        key sought, and what it reports is always that first one. */
    method InternalGet(k: Key) returns (found: bool, key: Bytes, value: Bytes)
      requires Valid()
      ensures Sound() && found ==> Reported(k, Row(key, value))
      ensures Sound() && Sought(k) ==> found
    {
      hide IndexOf, InOrder, SortedRows, SectionStored, SectionFiltered, Represents, Iter.Sound, Iter.At, Iter.Lands, BlockBuilder.Encodes;
      hide FirstAtOrAfter, EncodeHandle, FilterBlock.Reader.Reads, Sound, Sought, Reported, LandsOn, InGroup;
      found, key, value := false, [], [];
      ghost var sound := Sound();
      if sound {
        AboutSound();
      }
      var iiter := BlockBuilder.NewIterator(rank, indexContents, index);
      if iiter == null {
        return;
      }
      ghost var pos := iiter.Seek(k);
      ghost var s := Section(Layout([], [], []), BlockHandle(0, 0));
      if sound {
        IndexLands(k, iiter, pos);
        if pos < |sections| {
          s := sections[pos];
          AboutSection(pos);
        } else {
          PastIndex(k, pos);
        }
      }
      if iiter.current >= iiter.restarts {
        return;
      }
      if filter != null {
        var ok, handle, _ := DecodeHandle(iiter.value, s.handle);
        if ok {
          var matches := filter.KeyMayMatch(handle.offset, UserKey(k), groups);
          if !matches {
            if sound {
              FilterExcludes(k, pos);
            }
            return;
          }
        }
      }
      var it := BlockReader(iiter.value, s);
      if it == null {
        return;
      }
      ghost var q := it.Seek(k);
      if sound {
        BlockLands(k, pos, it, q);
      }
      if it.current < it.restarts {
        found, key, value := true, it.key, it.value;
      }
    }

    lemma AboutSound()
      requires Sound()
      ensures AllKeys(sections) && SortedRows(index, rank) && BlockBuilder.Encodes(index, indexContents)
      ensures filter != null ==> filter.Valid() && filter.Reads(groups)
    {
    }

    lemma AboutSection(pos: nat)
      requires Sound() && pos < |sections|
      ensures SectionStored(crc, file, sections[pos]) && SortedRows(sections[pos].lay, rank)
      ensures filter != null ==> SectionFiltered(sections[pos], groups)
    {
    }

    lemma PastIndex(k: Key, pos: nat)
      requires Sound() && LandsOn(rank, index, k, pos) && pos == |sections|
      ensures !Sought(k)
    {
      forall i: nat, p: nat | FirstAtOrAfter(rank, sections, k, i, p) ensures false {
        AnswerIsInSection(rank, sections, index, k, pos, i, p);
      }
    }

    lemma FilterExcludes(k: Key, pos: nat)
      requires Sound() && LandsOn(rank, index, k, pos) && pos < |sections| && filter != null
      requires
        var n := sections[pos].handle.offset / FilterBlock.BASE;
        n < |groups| ==> UserKey(k) !in groups[n]
      ensures !Sought(k)
    {
      AboutSection(pos);
      forall i: nat, p: nat | FirstAtOrAfter(rank, sections, k, i, p) ensures UserKey(RowKey(sections, i, p)) != UserKey(k) {
        AnswerIsInSection(rank, sections, index, k, pos, i, p);
        assert InGroup(groups, sections[i].handle.offset / FilterBlock.BASE, sections[i].lay.rows[p].key) || i != pos;
      }
    }

    /** Row `q` of the section the index names is the first at or after `k`. */
    lemma FoundInSection(k: Key, pos: nat, q: nat)
      requires Sound() && LandsOn(rank, index, k, pos) && pos < |sections|
      requires q < |sections[pos].lay.rows| && LandsOn(rank, sections[pos].lay, k, q)
      ensures Reported(k, sections[pos].lay.rows[q])
    {
      hide IndexOf, InOrder, Represents, SectionStored, SectionFiltered;
      forall j, r | 0 <= j < pos && r in sections[j].lay.rows ensures rank(r.key) < rank(k) {
        EarlierAreBelow(rank, sections, index, k, pos, j, r);
      }
      assert FirstAtOrAfter(rank, sections, k, pos, q);
    }

    lemma PastSection(k: Key, pos: nat)
      requires Sound() && LandsOn(rank, index, k, pos) && pos < |sections| && LandsOn(rank, sections[pos].lay, k, |sections[pos].lay.rows|)
      ensures !Sought(k)
    {
      hide Represents, SectionStored, SectionFiltered;
      forall i: nat, p: nat | FirstAtOrAfter(rank, sections, k, i, p) ensures UserKey(RowKey(sections, i, p)) != UserKey(k) {
        AnswerIsInSection(rank, sections, index, k, pos, i, p);
      }
    }

    lemma BlockLands(k: Key, pos: nat, it: Iter, q: nat)
      requires Sound() && LandsOn(rank, index, k, pos) && pos < |sections|
      requires it.Valid() && it.Sound() && it.lay == sections[pos].lay && it.rank == rank && it.Lands(k, q) && it.At(q)
      ensures it.current < it.restarts ==> Reported(k, Row(it.key, it.value))
      ensures it.current >= it.restarts ==> !Sought(k)
    {
      hide Sound, Iter.Sound, Iter.At, Reported, Sought;
      it.AtOffset(q);
      var rows := sections[pos].lay.rows;
      if q < |rows| {
        it.AtRow(q);
        FoundInSection(k, pos, q);
        assert rows[q] == Row(it.key, it.value);
      } else {
        PastSection(k, pos);
      }
    }

    /** Where a seek in the index leads. */
    lemma IndexLands(k: Key, iiter: Iter, pos: nat)
      requires Sound() && iiter.Valid() && iiter.Sound() && iiter.lay == index && iiter.rank == rank
      requires iiter.Lands(k, pos) && iiter.At(pos)
      ensures LandsOn(rank, index, k, pos) && |index.rows| == |sections|
      ensures iiter.current < iiter.restarts <==> pos < |sections|
      ensures pos < |sections| ==> iiter.value == EncodeHandle(sections[pos].handle) && HandleFits(sections[pos].handle)
    {
      iiter.AtOffset(pos);
      if pos < |sections| {
        assert IndexKeyOk(sections, index, pos);
        iiter.AtRow(pos);
      }
    }
  }
}
