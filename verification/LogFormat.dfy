/** The write-ahead log: records cut into fragments that never cross a 32 KB block, and a
    reader that treats a torn tail as the end of the file. */
module LogFormat {
  import opened Coding

  const BLOCK: nat := 32768
  const HEADER: nat := 7

  const FULL: Byte := 1
  const FIRST: Byte := 2
  const MIDDLE: Byte := 3
  const LAST: Byte := 4
  const EOF: nat := 5
  const BAD_RECORD: nat := 6

  /** The checksum of a type byte followed by a payload. */
  type Crc = Bytes -> Word

  /** A position within a block; the end of one block is the start of the next. */
  type Offset = o: nat | o <= BLOCK

  function FragmentType(begin: bool, end: bool): Byte {
    if begin && end then FULL else if begin then FIRST else if end then LAST else MIDDLE
  }

  /** Header and payload of one fragment. */
  function Physical(crc: Crc, t: Byte, payload: Bytes): (r: Bytes)
    requires |payload| <= BLOCK - HEADER
    ensures |r| == HEADER + |payload|
  {
    Fixed32(Mask(crc([t] + payload))) + [|payload| % 256, |payload| / 256, t] + payload
  }

  /** Zeros up to the end of a block with no room for a header. */
  function Trailer(off: Offset): Bytes {
    if BLOCK - off < HEADER then seq(BLOCK - off, _ => 0) else []
  }

  function SkipTo(off: Offset): (r: Offset)
    ensures BLOCK - r >= HEADER
  {
    if BLOCK - off < HEADER then 0 else off
  }

  /** How much of `data` goes into a fragment whose header starts at `off`. */
  function Fit(data: Bytes, off: Offset): (n: nat)
    requires BLOCK - off >= HEADER
    ensures n <= |data| && off + HEADER + n <= BLOCK
  {
    if |data| < BLOCK - off - HEADER then |data| else BLOCK - off - HEADER
  }

  /** The fragments of `data`, the first one's header at `off`; a fragment that does not
      end the record fills its block. */
  function Fragments(crc: Crc, data: Bytes, off: Offset, begin: bool): Bytes
    requires BLOCK - off >= HEADER
    decreases |data|, off
  {
    var n := Fit(data, off);
    Physical(crc, FragmentType(begin, n == |data|), data[..n])
    + if n == |data| then [] else Fragments(crc, data[n..], 0, false)
  }

  /** Where in its block the last fragment ends. */
  function EndOff(data: Bytes, off: Offset): Offset
    requires BLOCK - off >= HEADER
    decreases |data|, off
  {
    var n := Fit(data, off);
    if n == |data| then off + HEADER + n else EndOff(data[n..], 0)
  }

  /** What AddRecord appends at `off`. */
  function Emit(crc: Crc, data: Bytes, off: Offset, begin: bool): Bytes {
    Trailer(off) + Fragments(crc, data, SkipTo(off), begin)
  }

  /** The bytes of a list of records written from `off` on. */
  function Layout(crc: Crc, records: seq<Bytes>, off: Offset): Bytes {
    if records == [] then []
    else Emit(crc, records[0], off, true) + Layout(crc, records[1..], EndOff(records[0], SkipTo(off)))
  }

  function LayoutEnd(records: seq<Bytes>, off: Offset): Offset {
    if records == [] then off else LayoutEnd(records[1..], EndOff(records[0], SkipTo(off)))
  }

  /** Adding records one at a time builds the layout. */
  lemma {:induction false} LayoutAppend(crc: Crc, records: seq<Bytes>, data: Bytes, off: Offset)
    ensures Layout(crc, records + [data], off) == Layout(crc, records, off) + Emit(crc, data, LayoutEnd(records, off), true)
    ensures LayoutEnd(records + [data], off) == EndOff(data, SkipTo(LayoutEnd(records, off)))
  {
    hide Emit, EndOff, SkipTo;
    if records == [] {
      assert ([] + [data])[1..] == [];
    } else {
      var next := EndOff(records[0], SkipTo(off));
      LayoutAppend(crc, records[1..], data, next);
      assert (records + [data])[1..] == records[1..] + [data];
      Regroup(Emit(crc, records[0], off, true), Layout(crc, records[1..], next), Emit(crc, data, LayoutEnd(records[1..], next), true));
    }
  }

  /** The records wholly inside the first `limit` bytes. */
  function Whole(crc: Crc, records: seq<Bytes>, off: Offset, limit: int): seq<Bytes> {
    if records == [] then []
    else
      var size := |Emit(crc, records[0], off, true)|;
      if size <= limit then [records[0]] + Whole(crc, records[1..], EndOff(records[0], SkipTo(off)), limit - size) else []
  }

  lemma Regroup(a: Bytes, b: Bytes, c: Bytes)
    ensures (a + b) + c == a + (b + c)
  {
  }

  /** `d` after one turn of the writer's loop. */
  function Turn(crc: Crc, d: Bytes, data: Bytes, off: Offset, begin: bool): Bytes {
    var n := Fit(data, SkipTo(off));
    (if 0 < BLOCK - off < HEADER then d + seq(BLOCK - off, _ => 0) else d)
    + Physical(crc, FragmentType(begin, n == |data|), data[..n])
  }

  lemma EndStep(data: Bytes, off: Offset)
    requires BLOCK - off >= HEADER
    ensures var n := Fit(data, off);
      && EndOff(data, off) == (if n == |data| then off + HEADER + n else EndOff(data[n..], SkipTo(BLOCK)))
      && (n < |data| ==> off + HEADER + n == BLOCK)
  {
  }

  lemma EmitStep(crc: Crc, d: Bytes, data: Bytes, off: Offset, begin: bool)
    ensures
      var o, n := SkipTo(off), Fit(data, SkipTo(off));
      && (n == |data| ==> d + Emit(crc, data, off, begin) == Turn(crc, d, data, off, begin))
      && (n < |data| ==> o + HEADER + n == BLOCK)
      && (n < |data| ==> d + Emit(crc, data, off, begin) == Turn(crc, d, data, off, begin) + Emit(crc, data[n..], BLOCK, false))
  {
    var o, n := SkipTo(off), Fit(data, SkipTo(off));
    var head := Physical(crc, FragmentType(begin, n == |data|), data[..n]);
    var rest := if n == |data| then [] else Fragments(crc, data[n..], 0, false);
    assert Trailer(BLOCK) == [];
    assert [] + rest == rest;
    assert d + Trailer(off) == (if 0 < BLOCK - off < HEADER then d + seq(BLOCK - off, _ => 0) else d);
    assert Fragments(crc, data, o, begin) == head + rest;
    Regroup(d + Trailer(off), head, rest);
    Regroup(d, Trailer(off), head + rest);
  }

  /** They are the longest run of records, from the first, whose bytes fit. */
  lemma {:induction false} WholeIsLongest(crc: Crc, records: seq<Bytes>, off: Offset, limit: nat)
    ensures
      var w := Whole(crc, records, off, limit);
      && w <= records
      && |Layout(crc, w, off)| <= limit
      && (|w| < |records| ==> limit < |Layout(crc, records[..|w| + 1], off)|)
  {
    hide Emit, EndOff;
    if records != [] {
      var size := |Emit(crc, records[0], off, true)|;
      var next := EndOff(records[0], SkipTo(off));
      var w := Whole(crc, records, off, limit);
      if size <= limit {
        WholeIsLongest(crc, records[1..], next, limit - size);
        assert w[1..] == Whole(crc, records[1..], next, limit - size);
        if |w| < |records| {
          assert records[..|w| + 1][1..] == records[1..][..|w|];
        }
      } else {
        assert records[..1][1..] == [] && Layout(crc, records[..1], off) == Emit(crc, records[0], off, true) + [];
      }
    }
  }

  /** How many blocks the fragments of `data` fill without ending the record. */
  function Filled(data: Bytes, off: Offset): nat
    requires BLOCK - off >= HEADER
    decreases |data|, off
  {
    var n := Fit(data, off);
    if n == |data| then 0 else 1 + Filled(data[n..], 0)
  }

  /** A record of any length ends where its bytes say it does. */
  lemma {:induction false} FragmentsOffset(crc: Crc, data: Bytes, off: Offset, begin: bool)
    requires BLOCK - off >= HEADER
    ensures off + |Fragments(crc, data, off, begin)| == EndOff(data, off) + BLOCK * Filled(data, off)
    decreases |data|, off
  {
    EndStep(data, off);
    var n := Fit(data, off);
    if n < |data| {
      FragmentsOffset(crc, data[n..], 0, false);
    }
  }

  ghost predicate Aligned(a: int, b: int) {
    exists k: int :: a == b + BLOCK * k
  }

  /** The writer's offset into its block is determined by the length of the file alone, so
      a file written so far can be taken up again. */
  lemma {:induction false} LayoutOffset(crc: Crc, records: seq<Bytes>, off: Offset)
    ensures Aligned(off + |Layout(crc, records, off)|, LayoutEnd(records, off))
  {
    if records == [] {
      assert off == off + BLOCK * 0;
    } else {
      hide Fragments, EndOff, Filled;
      var o := SkipTo(off);
      var e := EndOff(records[0], o);
      FragmentsOffset(crc, records[0], o, true);
      LayoutOffset(crc, records[1..], e);
      var k: int :| e + |Layout(crc, records[1..], e)| == LayoutEnd(records[1..], e) + BLOCK * k;
      var skipped := if o == off then 0 else 1;
      var j := k + Filled(records[0], o) + skipped;
      assert off + |Layout(crc, records, off)| == LayoutEnd(records, off) + BLOCK * j;
    }
  }

  /** The place in its block of byte `n` of a file. */
  function InBlock(n: nat): Offset {
    n % BLOCK
  }

  lemma OffsetOf(n: nat, last: Offset)
    requires Aligned(n, last)
    ensures InBlock(n) == last || (last == BLOCK && InBlock(n) == 0)
  {
    var k: int :| n == last + BLOCK * k;
  }

  /** Opening a file that holds `records` and appending at its length modulo the block size
      lays out one more record. */
  lemma AddsRecord(crc: Crc, records: seq<Bytes>, data: Bytes)
    ensures
      var file := Layout(crc, records, 0);
      file + Emit(crc, data, InBlock(|file|), true) == Layout(crc, records + [data], 0)
  {
    hide Emit, EndOff, Layout, LayoutEnd, Aligned, InBlock;
    var file := Layout(crc, records, 0);
    var last := LayoutEnd(records, 0);
    LayoutAppend(crc, records, data, 0);
    EndsInBlock(crc, records);
    EmitAtBoundary(crc, data);
  }

  lemma EndsInBlock(crc: Crc, records: seq<Bytes>)
    ensures
      var n, last := |Layout(crc, records, 0)|, LayoutEnd(records, 0);
      InBlock(n) == last || (last == BLOCK && InBlock(n) == 0)
  {
    hide Layout, LayoutEnd, InBlock;
    LayoutOffset(crc, records, 0);
    OffsetOf(|Layout(crc, records, 0)|, LayoutEnd(records, 0));
  }

  lemma EmitAtBoundary(crc: Crc, data: Bytes)
    ensures Emit(crc, data, BLOCK, true) == Emit(crc, data, 0, true)
  {
    hide Fragments;
    assert Trailer(BLOCK) == [] == Trailer(0);
  }

  // ----- the writer -----

  class Writer {
    const crc: Crc
    var dest: Bytes
    var blockOffset: Offset

    constructor (crc: Crc, dest: Bytes)
      ensures this.crc == crc && this.dest == dest && blockOffset == |dest| % BLOCK
    {
      this.crc, this.dest, blockOffset := crc, dest, |dest| % BLOCK;
    }

    method AddRecord(data: Bytes)
      modifies this
      ensures dest == old(dest) + Emit(crc, data, old(blockOffset), true)
      ensures blockOffset == EndOff(data, SkipTo(old(blockOffset)))
    {
      hide Emit, EndOff, Physical;
      var begin, left := true, data;
      ghost var goal, last := dest + Emit(crc, data, blockOffset, true), EndOff(data, SkipTo(blockOffset));
      while true
        invariant dest + Emit(crc, left, blockOffset, begin) == goal
        invariant EndOff(left, SkipTo(blockOffset)) == last
        decreases |left|, SkipTo(blockOffset)
      {
        EmitStep(crc, dest, left, blockOffset, begin);
        EndStep(left, SkipTo(blockOffset));
        var leftover := BLOCK - blockOffset;
        if leftover < HEADER {
          if leftover > 0 {
            dest := dest + seq(leftover, _ => 0);
          }
          blockOffset := 0;
        }
        var avail := BLOCK - blockOffset - HEADER;
        var length := if |left| < avail then |left| else avail;
        var end := |left| == length;
        var t := if begin && end then FULL else if begin then FIRST else if end then LAST else MIDDLE;
        EmitPhysicalRecord(t, left[..length]);
        left := left[length..];
        begin := false;
        if left == [] {
          break;
        }
      }
    }

    method EmitPhysicalRecord(t: Byte, payload: Bytes)
      requires blockOffset + HEADER + |payload| <= BLOCK
      modifies this
      ensures dest == old(dest) + Physical(crc, t, payload)
      ensures blockOffset == old(blockOffset) + HEADER + |payload|
    {
      var header := Fixed32(Mask(crc([t] + payload))) + [|payload| % 256, |payload| / 256, t];
      Regroup(dest, header, payload);
      dest := dest + header;
      dest := dest + payload;
      blockOffset := blockOffset + HEADER + |payload|;
    }
  }

  // ----- the reader -----

  lemma SplitPrefix(r: Bytes, a: Bytes, b: Bytes)
    requires r <= a + b
    ensures |a| <= |r| ==> r[..|a|] == a && r[|a|..] <= b
    ensures |r| <= |a| ==> r <= a
  {
    if |a| <= |r| {
      assert (a + b)[..|a|] == a;
      assert r[..|a|] == (a + b)[..|r|][..|a|];
      assert r[|a|..] == b[..|r| - |a|];
    } else {
      assert (a + b)[..|r|] == a[..|r|];
    }
  }

  /** What the reader finds in a buffer that starts with a fragment's header. */
  lemma ReadsHeader(crc: Crc, b: Bytes, t: Byte, payload: Bytes, more: Bytes)
    requires HEADER <= |b| && |payload| <= BLOCK - HEADER
    requires b <= Physical(crc, t, payload) + more
    ensures Unmask(DecodeFixed32(b)) == crc([t] + payload)
    ensures b[4] as int + b[5] as int * 256 == |payload| && b[6] == t
    ensures HEADER + |payload| <= |b| ==>
      b[6..HEADER + |payload|] == [t] + payload && b[HEADER..HEADER + |payload|] == payload
  {
    var word := Fixed32(Mask(crc([t] + payload)));
    var p := Physical(crc, t, payload);
    assert p == word + [|payload| % 256, |payload| / 256, t] + payload;
    assert b == (p + more)[..|b|];
    assert b[..4] == word && b == word + b[4..];
    Fixed32RoundTrip(Mask(crc([t] + payload)), b[4..]);
    UnmaskInverts(crc([t] + payload));
    assert b[4] == p[4] && b[5] == p[5] && b[6] == p[6];
    if HEADER + |payload| <= |b| {
      assert b[..|p|] == p;
      assert p[HEADER..] == payload;
      assert p[6..] == [t] + payload;
      assert b[6..|p|] == b[..|p|][6..] && b[HEADER..|p|] == b[..|p|][HEADER..];
    }
  }

  /** The file continues, from block offset `off`, with one fragment and then `more`. */
  ghost predicate Continues(crc: Crc, off: Offset, t: Byte, payload: Bytes, more: Bytes, rest: Bytes) {
    && SkipTo(off) + HEADER + |payload| <= BLOCK
    && t >= FULL
    && rest <= Trailer(off) + (Physical(crc, t, payload) + more)
  }

  /** One physical read of such a file: the whole fragment is handed over, or the file is
      at its end. */
  ghost predicate Outcome(off0: Offset, payload: Bytes, more: Bytes, rest0: Bytes, fragment: Bytes, off1: Offset, rest1: Bytes) {
    var size := |Trailer(off0)| + HEADER + |payload|;
    && fragment == payload
    && off1 == SkipTo(off0) + HEADER + |payload|
    && size <= |rest0| && rest1 == rest0[size..] && rest1 <= more
  }

  lemma TakenWhole(off: Offset, payload: Bytes, more: Bytes, rest: Bytes)
    requires BLOCK - off >= HEADER && off + HEADER + |payload| <= BLOCK
    ensures HEADER + |payload| <= |rest| && rest[HEADER + |payload|..] <= more ==>
              Outcome(off, payload, more, rest, payload, off + HEADER + |payload|, rest[HEADER + |payload|..])
  {
  }

  /** The header, checksum and payload at the front of a buffer. */
  lemma ParsesFragment(crc: Crc, off: Offset, t: Byte, payload: Bytes, more: Bytes, buffer: Bytes, rest: Bytes)
    requires BLOCK - off >= HEADER && HEADER <= |buffer| && buffer <= rest
    requires Continues(crc, off, t, payload, more, rest)
    ensures off + HEADER + |payload| <= BLOCK && t >= FULL
    ensures buffer[4] as int + buffer[5] as int * 256 == |payload| && buffer[6] == t
    ensures Unmask(DecodeFixed32(buffer)) == crc([t] + payload)
    ensures HEADER + |payload| <= |buffer| ==>
      && buffer[6..HEADER + |payload|] == [t] + payload
      && buffer[HEADER..HEADER + |payload|] == payload
      && rest[HEADER + |payload|..] <= more
  {
    var head := Physical(crc, t, payload);
    assert Trailer(off) == [] && [] + (head + more) == head + more;
    ReadsHeader(crc, buffer, t, payload, more);
    SplitPrefix(rest, head, more);
  }

  /** Skipping a block trailer does not change what the next fragment is. */
  lemma SkipsTrailer(crc: Crc, off: Offset, t: Byte, payload: Bytes, more: Bytes, rest: Bytes)
    requires BLOCK - off < HEADER && BLOCK - off <= |rest|
    requires Continues(crc, off, t, payload, more, rest)
    ensures Continues(crc, 0, t, payload, more, rest[BLOCK - off..])
  {
    var head := Physical(crc, t, payload);
    SplitPrefix(rest, Trailer(off), head + more);
    assert Trailer(0) == [] && [] + (head + more) == head + more;
  }

  /** What must follow the fragment at `off` when `data` is being read. */
  ghost function Ahead(crc: Crc, data: Bytes, off: Offset, tail: Bytes): Bytes {
    var n := Fit(data, SkipTo(off));
    if n == |data| then tail else Emit(crc, data[n..], BLOCK, false) + tail
  }

  lemma FragmentAhead(crc: Crc, data: Bytes, off: Offset, begin: bool, tail: Bytes, rest: Bytes)
    requires rest <= Emit(crc, data, off, begin) + tail
    ensures
      var n := Fit(data, SkipTo(off));
      && Continues(crc, off, FragmentType(begin, n == |data|), data[..n], Ahead(crc, data, off, tail), rest)
      && |Emit(crc, data, off, begin)| ==
           |Trailer(off)| + HEADER + n + (if n == |data| then 0 else |Emit(crc, data[n..], BLOCK, false)|)
  {
    var o, n := SkipTo(off), Fit(data, SkipTo(off));
    var head := Physical(crc, FragmentType(begin, n == |data|), data[..n]);
    var others := if n == |data| then [] else Emit(crc, data[n..], BLOCK, false);
    assert Trailer(BLOCK) == [];
    assert n < |data| ==> others == Fragments(crc, data[n..], 0, false);
    assert Fragments(crc, data, o, begin) == head + others;
    Regroup(Trailer(off), head + others, tail);
    Regroup(head, others, tail);
    assert [] + tail == tail;
  }

  lemma Consume(scratch: Bytes, left: Bytes, n: nat, rest: Bytes, done: nat, size: nat)
    requires n <= |left| && done <= |rest|
    ensures (scratch + left[..n]) + left[n..] == scratch + left
    ensures done + size <= |rest| ==> rest[done..][size..] == rest[done + size..]
  {
  }

  /** The switch on a fragment's type: whether the loop ends, what it returns, and the record
      gathered so far. */
  function Dispatch(t: Byte, fragment: Bytes, scratch: Bytes, inFragmented: bool): (bool, bool, Bytes, Bytes, bool) {
    if t == FULL then (true, true, fragment, scratch, inFragmented)
    else if t == FIRST then (false, false, [], fragment, true)
    else if t == MIDDLE then (false, false, [], if inFragmented then scratch + fragment else scratch, inFragmented)
    else if t == LAST then
      if inFragmented then (true, true, scratch + fragment, scratch + fragment, true) else (false, false, [], scratch, false)
    else if t == EOF then (true, false, [], scratch, inFragmented)
    else (false, false, [], if inFragmented || t != BAD_RECORD then [] else scratch, false)
  }

  /** The reports made, each of a number of bytes; a report of no bytes is one too. */
  function Dropped(t: Byte, fragment: Bytes, scratch: Bytes, inFragmented: bool): seq<nat> {
    if t == FULL || t == FIRST then if inFragmented && scratch != [] then [|scratch|] else []
    else if t == MIDDLE || t == LAST then if inFragmented then [] else [|fragment|]
    else if t == EOF then []
    else if t == BAD_RECORD then if inFragmented then [|scratch|] else []
    else [|fragment| + if inFragmented then |scratch| else 0]
  }

  /** The fragments of a record are put together, and nothing is reported. */
  lemma DispatchFragment(scratch: Bytes, inFragmented: bool, left: Bytes, n: nat)
    requires n <= |left| && (!inFragmented ==> scratch == [])
    ensures
      var t := FragmentType(!inFragmented, n == |left|);
      var d := Dispatch(t, left[..n], scratch, inFragmented);
      && Dropped(t, left[..n], scratch, inFragmented) == []
      && if n == |left| then d.0 && d.1 && d.2 == scratch + left
         else !d.0 && !d.1 && d.3 == scratch + left[..n] && d.4
  {
  }

  /** A whole physical record of a type that no writer uses. */
  datatype Mark = NoMark | Mark(t: Byte, payload: Bytes)

  function MarkSize(mark: Mark, off: Offset): nat {
    if mark.NoMark? then 0 else |Trailer(off)| + HEADER + |mark.payload|
  }

  /** Type 5 ends the file, and so does a mark that is not wholly there. */
  predicate Ends(mark: Mark, off: Offset, rest: Bytes) {
    mark.Mark? && (mark.t as int == EOF || MarkSize(mark, off) > |rest|)
  }

  /** What is reported of a mark. */
  function Noted(mark: Mark, off: Offset, rest: Bytes): seq<nat> {
    if mark.NoMark? || Ends(mark, off, rest) || mark.t as int == BAD_RECORD then [] else [|mark.payload|]
  }

  /** The record is returned if it is wholly there, otherwise the file is at its end. */
  ghost predicate Found(crc: Crc, data: Bytes, off0: Offset, rest0: Bytes, ok: bool, record: Bytes, off1: Offset, rest1: Bytes) {
    var size := |Emit(crc, data, off0, true)|;
    if size <= |rest0| then ok && record == data && rest1 == rest0[size..] && off1 == EndOff(data, SkipTo(off0))
    else !ok && rest1 == []
  }

  /** ... behind a mark, as if the mark were not there, unless it ends the file. */
  ghost predicate MarkedFound(crc: Crc, data: Bytes, mark: Mark, off0: Offset, rest0: Bytes, ok: bool, record: Bytes, off1: Offset, rest1: Bytes) {
    if mark.NoMark? then Found(crc, data, off0, rest0, ok, record, off1, rest1)
    else if Ends(mark, off0, rest0) then !ok
    else
      var off := SkipTo(off0) + HEADER + |mark.payload|;
      off <= BLOCK && Found(crc, data, off, rest0[MarkSize(mark, off0)..], ok, record, off1, rest1)
  }

  ghost predicate MarkPassed(mark: Mark, off0: Offset, rest0: Bytes, off: Offset, rest: Bytes) {
    if mark.NoMark? then off == off0 && rest == rest0
    else
      !Ends(mark, off0, rest0) && off == SkipTo(off0) + HEADER + |mark.payload|
      && rest == rest0[MarkSize(mark, off0)..]
  }

  lemma SameFragment(off0: Offset, payload: Bytes, more: Bytes, rest0: Bytes, fragment: Bytes, off1: Offset, rest1: Bytes)
    requires Outcome(off0, payload, more, rest0, fragment, off1, rest1)
    ensures fragment == payload && Outcome(off0, payload, more, rest0, payload, off1, rest1)
  {
  }

  /** The file goes on with `data`, behind the mark if there is one. */
  ghost predicate Awaits(crc: Crc, mark: Mark, data: Bytes, tail: Bytes, off: Offset, rest: Bytes) {
    match mark
    case NoMark => rest <= Emit(crc, data, off, true) + tail
    case Mark(t, payload) => t > LAST && Continues(crc, off, t, payload, AfterMark(crc, payload, data, tail, off), rest)
  }

  ghost function AfterMark(crc: Crc, payload: Bytes, data: Bytes, tail: Bytes, off: Offset): Bytes {
    if SkipTo(off) + HEADER + |payload| <= BLOCK then Emit(crc, data, SkipTo(off) + HEADER + |payload|, true) + tail else []
  }

  /** The first fragments of `data` are in `scratch`, the others lie ahead. */
  ghost predicate Reading(crc: Crc, data: Bytes, tail: Bytes, scratch: Bytes, inFragmented: bool, left: Bytes, done: nat,
                          rest: Bytes, begin: Offset, off: Offset, now: Bytes) {
    && scratch + left == data && now <= Emit(crc, left, off, !inFragmented) + tail && (!inFragmented ==> scratch == [])
    && done <= |rest| && now == rest[done..]
    && done + |Emit(crc, left, off, !inFragmented)| == |Emit(crc, data, begin, true)|
    && EndOff(left, SkipTo(off)) == EndOff(data, SkipTo(begin))
  }

  lemma StartsReading(crc: Crc, data: Bytes, tail: Bytes, off: Offset, rest: Bytes)
    requires Awaits(crc, NoMark, data, tail, off, rest)
    ensures Reading(crc, data, tail, [], false, data, 0, rest, off, off, rest) && MarkPassed(NoMark, off, rest, off, rest)
  {
  }

  lemma ReadingAhead(crc: Crc, data: Bytes, tail: Bytes, scratch: Bytes, inFragmented: bool, left: Bytes, done: nat,
                     rest: Bytes, begin: Offset, off: Offset, now: Bytes)
    requires Reading(crc, data, tail, scratch, inFragmented, left, done, rest, begin, off, now)
    ensures
      var n := Fit(left, SkipTo(off));
      Continues(crc, off, FragmentType(!inFragmented, n == |left|), left[..n], Ahead(crc, left, off, tail), now)
  {
    hide Emit, Continues;
    FragmentAhead(crc, left, off, !inFragmented, tail, now);
  }

  /** One fragment on. */
  lemma ReadingStep(crc: Crc, data: Bytes, tail: Bytes, scratch: Bytes, inFragmented: bool, left: Bytes, n: nat, done: nat,
                    rest: Bytes, begin: Offset, off0: Offset, rest0: Bytes, off1: Offset, rest1: Bytes,
                    stop: bool, ok: bool, record: Bytes, next: Bytes, fragmented: bool)
    requires Reading(crc, data, tail, scratch, inFragmented, left, done, rest, begin, off0, rest0) && n == Fit(left, SkipTo(off0))
    requires
      if |Trailer(off0)| + HEADER + n <= |rest0|
      then
        && Outcome(off0, left[..n], Ahead(crc, left, off0, tail), rest0, left[..n], off1, rest1)
        && (stop, ok, record, next, fragmented) == Dispatch(FragmentType(!inFragmented, n == |left|), left[..n], scratch, inFragmented)
      else stop && !ok && rest1 == []
    ensures Dropped(FragmentType(!inFragmented, n == |left|), left[..n], scratch, inFragmented) == []
    ensures stop ==> Found(crc, data, begin, rest, ok, record, off1, rest1)
    ensures !stop ==> Reading(crc, data, tail, next, fragmented, left[n..], done + |Trailer(off0)| + HEADER + n, rest, begin, off1, rest1)
  {
    hide Emit, EndOff, Fit, Continues, SkipTo, Trailer, Physical, Dispatch, Dropped, FragmentType;
    FragmentAhead(crc, left, off0, !inFragmented, tail, rest0);
    EndStep(left, SkipTo(off0));
    Consume(scratch, left, n, rest, done, |Trailer(off0)| + HEADER + n);
    DispatchFragment(scratch, inFragmented, left, n);
    NextOffset(off0, n);
  }

  lemma NextOffset(off: Offset, n: nat)
    ensures BLOCK - SkipTo(off) >= HEADER && (SkipTo(off) + HEADER + n == BLOCK ==> SkipTo(BLOCK) == 0 && Trailer(BLOCK) == [])
  {
  }

  lemma MarkAhead(crc: Crc, mark: Mark, data: Bytes, tail: Bytes, off: Offset, rest: Bytes)
    requires mark.Mark? && Awaits(crc, mark, data, tail, off, rest)
    ensures Continues(crc, off, mark.t, mark.payload, AfterMark(crc, mark.payload, data, tail, off), rest)
  {
  }

  /** What a mark does. */
  lemma MarkRead(crc: Crc, mark: Mark, data: Bytes, tail: Bytes, off0: Offset, rest0: Bytes, off1: Offset, rest1: Bytes,
                 stop: bool, ok: bool, record: Bytes, next: Bytes, fragmented: bool)
    requires mark.Mark? && Awaits(crc, mark, data, tail, off0, rest0)
    requires
      if |Trailer(off0)| + HEADER + |mark.payload| <= |rest0|
      then
        && Outcome(off0, mark.payload, AfterMark(crc, mark.payload, data, tail, off0), rest0, mark.payload, off1, rest1)
        && (stop, ok, record, next, fragmented) == Dispatch(mark.t, mark.payload, [], false)
      else stop && !ok && rest1 == []
    ensures stop ==> Ends(mark, off0, rest0) && !ok && (MarkSize(mark, off0) <= |rest0| ==> Dropped(mark.t, mark.payload, [], false) == [])
    ensures !stop ==>
      && MarkPassed(mark, off0, rest0, off1, rest1) && next == [] && !fragmented
      && Dropped(mark.t, mark.payload, [], false) == Noted(mark, off0, rest0)
      && Reading(crc, data, tail, [], false, data, 0, rest1, off1, off1, rest1)
  {
    hide Emit, EndOff, Trailer;
  }

  lemma Returns(crc: Crc, data: Bytes, mark: Mark, marked: bool, start: Offset, whole: Bytes, begin: Offset, rest: Bytes, ok: bool, record: Bytes, off: Offset, now: Bytes)
    requires if marked then Ends(mark, start, whole) && !ok else MarkPassed(mark, start, whole, begin, rest) && Found(crc, data, begin, rest, ok, record, off, now)
    ensures MarkedFound(crc, data, mark, start, whole, ok, record, off, now)
  {
  }

  class Reader {
    const crc: Crc
    const file: Bytes
    var pos: nat
    var buffer: Bytes
    var eof: bool
    /** The sizes given to the reporter, one for each call of it. */
    var reported: seq<nat>
    ghost var off: Offset

    constructor (crc: Crc, file: Bytes)
      ensures this.crc == crc && this.file == file && Valid() && Rest() == file && off == BLOCK && reported == []
    {
      this.crc, this.file := crc, file;
      pos, buffer, eof, reported, off := 0, [], false, [], BLOCK;
    }

    ghost predicate Valid()
      reads this
    {
      && pos <= |file|
      && off + |buffer| <= BLOCK
      && (!eof ==> off + |buffer| == BLOCK)
      && (eof ==> pos == |file|)
    }

    /** The bytes not yet consumed. */
    ghost function Rest(): Bytes
      requires Valid()
      reads this
    {
      buffer + file[pos..]
    }

    method Refill()
      requires Valid() && !eof
      modifies this`buffer, this`pos, this`eof, this`off
      ensures Valid() && off == 0 && (!eof ==> |buffer| == BLOCK)
      ensures Rest() == old(file[pos..])
    {
      ghost var rest := file[pos..];
      buffer := if |file| - pos <= BLOCK then file[pos..] else file[pos..pos + BLOCK];
      pos := pos + |buffer|;
      off := 0;
      eof := |buffer| < BLOCK;
      assert buffer + file[pos..] == rest;
    }

    method ReportCorruption(bytes: nat)
      modifies this`reported
      ensures reported == old(reported) + [bytes]
    {
      reported := reported + [bytes];
    }

    /** The header at the front of the buffer, and its payload. */
    method ParseFragment(ghost t0: Byte, ghost payload: Bytes, ghost more: Bytes) returns (t: nat, fragment: Bytes)
      requires Valid() && |buffer| >= HEADER
      modifies this`buffer, this`reported, this`off
      ensures Valid() && |Rest()| < |old(Rest())|
      ensures old(Continues(crc, off, t0, payload, more, Rest())) ==>
        && reported == old(reported)
        && (if HEADER + |payload| <= |old(Rest())|
            then t == t0 as int && Outcome(old(off), payload, more, old(Rest()), fragment, off, Rest())
            else t == EOF && Rest() == [])
    {
      hide Continues, Outcome, Unmask, DecodeFixed32;
      ghost var rest := Rest();
      if Continues(crc, off, t0, payload, more, rest) {
        ParsesFragment(crc, off, t0, payload, more, buffer, rest);
        TakenWhole(off, payload, more, rest);
      }
      fragment := [];
      var length := buffer[4] as int + buffer[5] as int * 256;
      var kind := buffer[6];
      if HEADER + length > |buffer| {
        var drop := |buffer|;
        buffer, off := [], BLOCK;
        if !eof {
          ReportCorruption(drop);
          return BAD_RECORD, fragment;
        }
        return EOF, fragment;
      }
      if kind == 0 && length == 0 {
        buffer, off := [], BLOCK;
        return BAD_RECORD, fragment;
      }
      if crc(buffer[6..HEADER + length]) != Unmask(DecodeFixed32(buffer)) {
        ReportCorruption(|buffer|);
        buffer, off := [], BLOCK;
        return BAD_RECORD, fragment;
      }
      fragment := buffer[HEADER..HEADER + length];
      ghost var size := HEADER + length;
      assert buffer[size..] + file[pos..] == rest[size..];
      buffer, off := buffer[HEADER + length..], off + HEADER + length;
      return kind, fragment;
    }

    method ReadPhysicalRecord(ghost t0: Byte, ghost payload: Bytes, ghost more: Bytes) returns (t: nat, fragment: Bytes)
      requires Valid()
      modifies this`buffer, this`pos, this`eof, this`reported, this`off
      ensures Valid() && (t != EOF ==> |Rest()| < |old(Rest())|)
      ensures old(Continues(crc, off, t0, payload, more, Rest())) ==>
        && reported == old(reported)
        && (if |Trailer(old(off))| + HEADER + |payload| <= |old(Rest())|
            then t == t0 as int && Outcome(old(off), payload, more, old(Rest()), fragment, off, Rest())
            else t == EOF && Rest() == [])
    {
      hide Physical, Continues;
      ghost var ready := Continues(crc, off, t0, payload, more, Rest());
      ghost var rest := Rest();
      ghost var skipped: nat := 0;
      while |buffer| < HEADER
        invariant Valid() && reported == old(reported)
        invariant skipped <= |rest| && Rest() == rest[skipped..]
        invariant skipped + |Trailer(off)| == |Trailer(old(off))| && SkipTo(off) == SkipTo(old(off))
        invariant ready ==> Continues(crc, off, t0, payload, more, Rest())
        decreases if eof then 0 else BLOCK + HEADER - |buffer|
      {
        if eof {
          buffer, off := [], BLOCK;
          return EOF, [];
        }
        if ready {
          SkipsTrailer(crc, off, t0, payload, more, Rest());
        }
        assert Rest()[BLOCK - off..] == file[pos..];
        skipped := skipped + |buffer|;
        assert rest[skipped..] == file[pos..];
        Refill();
      }
      t, fragment := ParseFragment(t0, payload, more);
    }

    /** One turn of the reader's loop: a fragment, and what its type makes of it. */
    method ReadFragment(scratch: Bytes, inFragmented: bool, ghost t0: Byte, ghost payload: Bytes, ghost more: Bytes)
      returns (stop: bool, ok: bool, record: Bytes, next: Bytes, fragmented: bool)
      requires Valid()
      modifies this`buffer, this`pos, this`eof, this`reported, this`off
      ensures Valid() && (!stop || ok ==> |Rest()| < |old(Rest())|) && (ok ==> stop)
      ensures old(Continues(crc, off, t0, payload, more, Rest())) ==>
        if |Trailer(old(off))| + HEADER + |payload| <= |old(Rest())|
        then
          && Outcome(old(off), payload, more, old(Rest()), payload, off, Rest())
          && (stop, ok, record, next, fragmented) == Dispatch(t0, payload, scratch, inFragmented)
          && reported == old(reported) + Dropped(t0, payload, scratch, inFragmented)
        else stop && !ok && Rest() == [] && reported == old(reported)
    {
      hide Continues, Outcome, Trailer;
      stop, ok, record, next, fragmented := false, false, [], scratch, inFragmented;
      var t, fragment := ReadPhysicalRecord(t0, payload, more);
      ghost var whole := old(Continues(crc, off, t0, payload, more, Rest())) && |Trailer(old(off))| + HEADER + |payload| <= |old(Rest())|;
      if whole {
        SameFragment(old(off), payload, more, old(Rest()), fragment, off, Rest());
      }
      if t == FULL as nat {
        if inFragmented && scratch != [] {
          ReportCorruption(|scratch|);
        }
        stop, ok, record := true, true, fragment;
      } else if t == FIRST as nat {
        if inFragmented && scratch != [] {
          ReportCorruption(|scratch|);
        }
        next, fragmented := fragment, true;
      } else if t == MIDDLE as nat {
        if !inFragmented {
          ReportCorruption(|fragment|);
        } else {
          next := scratch + fragment;
        }
      } else if t == LAST as nat {
        if !inFragmented {
          ReportCorruption(|fragment|);
        } else {
          next := scratch + fragment;
          stop, ok, record := true, true, next;
        }
      } else if t == EOF {
        stop := true;
      } else if t == BAD_RECORD {
        if inFragmented {
          ReportCorruption(|scratch|);
          next, fragmented := [], false;
        }
      } else {
        ReportCorruption(|fragment| + if inFragmented then |scratch| else 0);
        next, fragmented := [], false;
      }
    }

    /** The next whole record, if the file goes on with `data`: the record when it is wholly
        there, otherwise the end of the file without a word. A whole physical record of type 5
        before it ends the file; one of type 6 is passed over without a word, and one of any
        other type is passed over and reported. */
    method ReadRecord(ghost data: Bytes, ghost tail: Bytes, ghost mark: Mark) returns (ok: bool, record: Bytes)
      requires Valid()
      modifies this`buffer, this`pos, this`eof, this`reported, this`off
      ensures Valid() && (ok ==> |Rest()| < |old(Rest())|)
      ensures Awaits(crc, mark, data, tail, old(off), old(Rest())) ==>
        && MarkedFound(crc, data, mark, old(off), old(Rest()), ok, record, off, Rest())
        && reported == old(reported) + Noted(mark, old(off), old(Rest()))
    {
      hide Emit, EndOff, Fit, Continues, SkipTo, Trailer, Physical, Found, Awaits, Dispatch, Dropped, Outcome, Reading, Ahead, Ends, MarkPassed, MarkedFound;
      var scratch, inFragmented: bool := [], false;
      ghost var start, whole := off, Rest();
      ghost var ready, marked := Awaits(crc, mark, data, tail, off, Rest()), mark.Mark?;
      ghost var rest, begin, left, done: nat := Rest(), off, data, 0;
      if ready && !marked {
        StartsReading(crc, data, tail, off, Rest());
      }
      while true
        invariant Valid() && |Rest()| <= |whole| && (marked ==> mark.Mark?)
        invariant ready && marked ==> scratch == [] && !inFragmented && Rest() == whole && off == start && reported == old(reported)
        invariant ready && !marked ==> MarkPassed(mark, start, whole, begin, rest) && reported == old(reported) + Noted(mark, start, whole)
        invariant ready && !marked ==> Reading(crc, data, tail, scratch, inFragmented, left, done, rest, begin, off, Rest())
        decreases |Rest()|
      {
        ghost var n := Fit(left, SkipTo(off));
        ghost var kind, payload, more := FragmentType(!inFragmented, n == |left|), left[..n], Ahead(crc, left, off, tail);
        if ready && marked {
          kind, payload, more := mark.t, mark.payload, AfterMark(crc, mark.payload, data, tail, off);
          MarkAhead(crc, mark, data, tail, off, Rest());
        } else if ready {
          ReadingAhead(crc, data, tail, scratch, inFragmented, left, done, rest, begin, off, Rest());
        }
        ghost var off0, rest0 := off, Rest();
        var stop, next, fragmented;
        stop, ok, record, next, fragmented := ReadFragment(scratch, inFragmented, kind, payload, more);
        if ready && marked {
          MarkRead(crc, mark, data, tail, off0, rest0, off, Rest(), stop, ok, record, next, fragmented);
        } else if ready {
          ReadingStep(crc, data, tail, scratch, inFragmented, left, n, done, rest, begin, off0, rest0, off, Rest(), stop, ok, record, next, fragmented);
        }
        if stop {
          if ready {
            Returns(crc, data, mark, marked, start, whole, begin, rest, ok, record, off, Rest());
          }
          return;
        }
        if marked {
          rest, begin, left, done := Rest(), off, data, 0;
        } else {
          left, done := left[n..], done + |Trailer(off0)| + HEADER + n;
        }
        marked := false;
        scratch, inFragmented := next, fragmented;
      }
    }
  }

  /** One record more, or none that is wholly there. */
  lemma WholeStep(crc: Crc, records: seq<Bytes>, data: Bytes, off0: Offset, rest0: Bytes, ok: bool, record: Bytes, off1: Offset, rest1: Bytes)
    requires rest0 <= Layout(crc, records, off0) && Found(crc, data, off0, rest0, ok, record, off1, rest1)
    requires records != [] ==> data == records[0]
    ensures ok ==>
      && records != [] && rest1 <= Layout(crc, records[1..], off1)
      && Whole(crc, records, off0, |rest0|) == [record] + Whole(crc, records[1..], off1, |rest1|)
    ensures !ok ==> Whole(crc, records, off0, |rest0|) == []
  {
    hide Emit, EndOff;
    EmitSize(crc, data, off0);
    if records != [] {
      SplitPrefix(rest0, Emit(crc, data, off0, true), Layout(crc, records[1..], EndOff(data, SkipTo(off0))));
    }
  }

  lemma EmitSize(crc: Crc, data: Bytes, off: Offset)
    ensures |Emit(crc, data, off, true)| >= HEADER
  {
  }

  /** A whole file: the records, with the mark before them if there is one. */
  ghost predicate FileOf(crc: Crc, mark: Mark, records: seq<Bytes>, file: Bytes) {
    match mark
    case NoMark => file <= Layout(crc, records, 0)
    case Mark(t, payload) =>
      t > LAST && HEADER + |payload| <= BLOCK && file <= Physical(crc, t, payload) + Layout(crc, records, HEADER + |payload|)
  }

  /** Where in its block the first record starts. */
  function Begin(mark: Mark): Offset {
    if mark.NoMark? || HEADER + |mark.payload| > BLOCK then 0 else HEADER + |mark.payload|
  }

  lemma AwaitsFirst(crc: Crc, mark: Mark, records: seq<Bytes>, file: Bytes, data: Bytes, tail: Bytes)
    requires FileOf(crc, mark, records, file)
    requires if records == [] then tail == [] else data == records[0] && tail == Layout(crc, records[1..], EndOff(data, SkipTo(Begin(mark))))
    ensures Awaits(crc, mark, data, tail, BLOCK, file)
    ensures !Ends(mark, BLOCK, file) ==> MarkSize(mark, BLOCK) <= |file| && file[MarkSize(mark, BLOCK)..] <= Layout(crc, records, Begin(mark))
  {
    hide Emit, EndOff, Physical;
    assert Trailer(BLOCK) == [] == Trailer(0) && SkipTo(BLOCK) == 0 == SkipTo(0);
    EmitAtBoundary(crc, data);
    var after := Emit(crc, data, Begin(mark), true) + tail;
    assert Layout(crc, records, Begin(mark)) <= after by {
      assert records == [] ==> Layout(crc, records, Begin(mark)) == [];
    }
    if mark.Mark? {
      var p := Physical(crc, mark.t, mark.payload);
      assert [] + (p + after) == p + after;
      SplitPrefix(file, p, Layout(crc, records, Begin(mark)));
      assert p + Layout(crc, records, Begin(mark)) <= p + after;
    }
  }

  lemma AwaitsNext(crc: Crc, records: seq<Bytes>, data: Bytes, tail: Bytes, off: Offset, rest: Bytes)
    requires rest <= Layout(crc, records, off)
    requires if records == [] then tail == [] else data == records[0] && tail == Layout(crc, records[1..], EndOff(data, SkipTo(off)))
    ensures Awaits(crc, NoMark, data, tail, off, rest)
  {
    hide Emit, EndOff;
  }

  lemma NothingNoted(off: Offset, rest: Bytes)
    ensures Noted(NoMark, off, rest) == [] && MarkSize(NoMark, off) == 0 && !Ends(NoMark, off, rest) && rest[0..] == rest
  {
  }

  lemma BehindMark(crc: Crc, data: Bytes, mark: Mark, off: Offset, off0: Offset, rest: Bytes, ok: bool, record: Bytes, off1: Offset, rest1: Bytes)
    requires MarkedFound(crc, data, mark, off, rest, ok, record, off1, rest1) && !Ends(mark, off, rest)
    requires if mark.NoMark? then off0 == off || (off == BLOCK && off0 == 0) else off == BLOCK && off0 == Begin(mark)
    ensures MarkSize(mark, off) <= |rest| && Found(crc, data, off0, rest[MarkSize(mark, off)..], ok, record, off1, rest1)
  {
    hide EndOff, Fragments;
    assert Trailer(BLOCK) == [] == Trailer(0) && SkipTo(BLOCK) == 0 == SkipTo(0);
  }

  /** What one call of ReadRecord leaves. */
  lemma AfterRead(crc: Crc, mark: Mark, records: seq<Bytes>, data: Bytes, off: Offset, off0: Offset, rest: Bytes,
                  ok: bool, record: Bytes, off1: Offset, rest1: Bytes)
    requires MarkedFound(crc, data, mark, off, rest, ok, record, off1, rest1)
    requires if mark.NoMark? then off0 == off || (off == BLOCK && off0 == 0) else off == BLOCK && off0 == Begin(mark)
    requires !Ends(mark, off, rest) ==> MarkSize(mark, off) <= |rest| && rest[MarkSize(mark, off)..] <= Layout(crc, records, off0)
    requires records != [] ==> data == records[0]
    ensures ok ==>
      && !Ends(mark, off, rest) && records != [] && rest1 <= Layout(crc, records[1..], off1)
      && Whole(crc, records, off0, |rest| - MarkSize(mark, off)) == [record] + Whole(crc, records[1..], off1, |rest1|)
    ensures !ok ==> Ends(mark, off, rest) || Whole(crc, records, off0, |rest| - MarkSize(mark, off)) == []
  {
    hide Found, Layout, Whole, Begin, MarkSize, Ends, EndOff;
    if Ends(mark, off, rest) {
      EndsThere(crc, data, mark, off, rest, ok, record, off1, rest1);
    } else {
      BehindMark(crc, data, mark, off, off0, rest, ok, record, off1, rest1);
      WholeStep(crc, records, data, off0, rest[MarkSize(mark, off)..], ok, record, off1, rest1);
    }
  }

  lemma EndsThere(crc: Crc, data: Bytes, mark: Mark, off: Offset, rest: Bytes, ok: bool, record: Bytes, off1: Offset, rest1: Bytes)
    requires MarkedFound(crc, data, mark, off, rest, ok, record, off1, rest1) && Ends(mark, off, rest)
    ensures !ok
  {
  }

  /** The reader is at the front of a file, or behind a record it has read. */
  ghost predicate Stands(crc: Crc, mark: Mark, records: seq<Bytes>, off: Offset, off0: Offset, rest: Bytes) {
    || (off == BLOCK && off0 == Begin(mark) && FileOf(crc, mark, records, rest))
    || (mark.NoMark? && off0 == off && rest <= Layout(crc, records, off))
  }

  /** What is still to be read. */
  ghost function Left(crc: Crc, mark: Mark, records: seq<Bytes>, off: Offset, off0: Offset, rest: Bytes): seq<Bytes> {
    if Ends(mark, off, rest) then [] else Whole(crc, records, off0, |rest| - MarkSize(mark, off))
  }

  lemma StandsAwaits(crc: Crc, mark: Mark, records: seq<Bytes>, off: Offset, off0: Offset, rest: Bytes) returns (data: Bytes, tail: Bytes)
    requires Stands(crc, mark, records, off, off0, rest)
    ensures Awaits(crc, mark, data, tail, off, rest) && (records != [] ==> data == records[0])
    ensures !Ends(mark, off, rest) ==> MarkSize(mark, off) <= |rest| && rest[MarkSize(mark, off)..] <= Layout(crc, records, off0)
  {
    hide Emit, Ends, FileOf, Awaits, Layout, MarkSize, EndOff, SkipTo, Begin;
    data, tail := [], [];
    if records != [] {
      data, tail := records[0], Layout(crc, records[1..], EndOff(records[0], SkipTo(off0)));
    }
    if off == BLOCK && off0 == Begin(mark) && FileOf(crc, mark, records, rest) {
      AwaitsFirst(crc, mark, records, rest, data, tail);
    } else {
      AwaitsNext(crc, records, data, tail, off, rest);
      NothingNoted(off, rest);
    }
  }

  /** One more record, or the end of what there is to read. */
  method ReadOne(reader: Reader, ghost records: seq<Bytes>, ghost mark: Mark, ghost off0: Offset) returns (ok: bool, record: Bytes)
    requires reader.Valid()
    modifies reader
    ensures reader.Valid() && (ok ==> |reader.Rest()| < |old(reader.Rest())|)
    ensures Stands(reader.crc, mark, records, old(reader.off), off0, old(reader.Rest())) ==>
      && reader.reported == old(reader.reported) + Noted(mark, old(reader.off), old(reader.Rest()))
      && (!ok ==> Left(reader.crc, mark, records, old(reader.off), off0, old(reader.Rest())) == [])
      && (ok ==>
            && records != [] && Stands(reader.crc, NoMark, records[1..], reader.off, reader.off, reader.Rest())
            && Left(reader.crc, mark, records, old(reader.off), off0, old(reader.Rest()))
               == [record] + Left(reader.crc, NoMark, records[1..], reader.off, reader.off, reader.Rest()))
  {
    hide Emit, EndOff, Ends, Noted, FileOf, Awaits, Layout, Physical, MarkedFound, MarkSize, Whole, SkipTo, Begin;
    ghost var off, rest := reader.off, reader.Rest();
    ghost var ready := Stands(reader.crc, mark, records, off, off0, rest);
    ghost var data, tail: Bytes := [], [];
    if ready {
      data, tail := StandsAwaits(reader.crc, mark, records, off, off0, rest);
    }
    ok, record := reader.ReadRecord(data, tail, mark);
    if ready {
      StandsPlace(reader.crc, mark, records, off, off0, rest);
      AfterRead(reader.crc, mark, records, data, off, off0, rest, ok, record, reader.off, reader.Rest());
      NothingNoted(reader.off, reader.Rest());
    }
  }

  lemma StandsPlace(crc: Crc, mark: Mark, records: seq<Bytes>, off: Offset, off0: Offset, rest: Bytes)
    requires Stands(crc, mark, records, off, off0, rest)
    ensures if mark.NoMark? then off0 == off || (off == BLOCK && off0 == 0) else off == BLOCK && off0 == Begin(mark)
  {
  }

  /** A log file cut off anywhere gives back exactly the records wholly inside it, in order,
      and no report is made. One whole physical record of an unknown type in front makes one
      report, of its payload; type 6 makes none, and behind type 5 nothing is read. */
  method ReadAll(crc: Crc, file: Bytes, ghost records: seq<Bytes>, ghost mark: Mark) returns (all: seq<Bytes>, reported: seq<nat>)
    ensures FileOf(crc, mark, records, file) ==>
      && reported == Noted(mark, BLOCK, file)
      && all == if Ends(mark, BLOCK, file) then [] else Whole(crc, records, Begin(mark), |file| - MarkSize(mark, BLOCK))
  {
    hide Ends, Noted, FileOf, Layout, MarkSize, Whole, Begin;
    var reader := new Reader(crc, file);
    ghost var ready, m, off0, ahead := FileOf(crc, mark, records, file), mark, Begin(mark), records;
    ghost var whole := Left(crc, mark, records, BLOCK, off0, file);
    all := [];
    hide Stands, Left;
    while true
      invariant reader.Valid() && reader.crc == crc
      invariant ready ==>
        && Stands(crc, m, ahead, reader.off, off0, reader.Rest())
        && reader.reported + Noted(m, reader.off, reader.Rest()) == Noted(mark, BLOCK, file)
        && all + Left(crc, m, ahead, reader.off, off0, reader.Rest()) == whole
      decreases |reader.Rest()|
    {
      var ok, record := ReadOne(reader, ahead, m, off0);
      if !ok {
        break;
      }
      all := all + [record];
      m, off0 := NoMark, reader.off;
      NothingNoted(reader.off, reader.Rest());
      if ready {
        ahead := ahead[1..];
      }
    }
    reported := reader.reported;
  }
}
