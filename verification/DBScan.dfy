/** An iterator over the whole database: the cursor of DBIter over the merge of the memtables and
    all files of a version shows exactly what point lookups find. */
module DBScan {
  import opened Store
  import opened VersionGet
  import opened CompactionWork
  import opened InputSelection
  import opened FlushRace
  import opened EntryStreams
  import Merger
  import DBIter

  datatype Option<T> = None | Some(value: T)

  function Held(imm: Option<seq<Entry>>): seq<Entry> {
    if imm.Some? then imm.value else []
  }

  // ----- the streams -----

  /** The streams of all levels. */
  function LevelInputs(levels: seq<seq<File>>): seq<seq<Entry>> {
    if levels == [] then []
    else
      var n := |levels| - 1;
      LevelInputs(levels[..n]) + InputsOf(n, levels[n])
  }

  lemma {:induction false} AllOverlap(files: seq<File>)
    ensures Overlapping(files, Unbounded, Unbounded) == files
  {
    if files != [] {
      AllOverlap(files[..|files| - 1]);
    }
  }

  lemma WholeIsRun(files: seq<File>)
    requires files != []
    ensures IsRun(files, files)
  {
    assert files == files[0..|files|];
  }

  lemma WholeLevel(levels: seq<seq<File>>, l: nat)
    requires WellFormed(levels) && l < |levels|
    ensures Streams(InputsOf(l, levels[l]), Contents(levels[l]))
  {
    hide Streams, InputsOf, AgedByNumber, SortedLevel, NewerThan;
    var files := levels[l];
    AllOverlap(files);
    assert Closed(files, Unbounded, Unbounded) && IsCluster(files, files);
    if files != [] {
      WholeIsRun(files);
    }
    LevelStreams(l, files, files);
  }

  lemma UpperIsNewer(levels: seq<seq<File>>, n: nat, e: Entry, f: Entry)
    requires WellFormed(levels) && n < |levels|
    requires e in AllEntries(levels[..n]) && f in Contents(levels[n]) && e.key.user == f.key.user
    ensures e.key.sequence > f.key.sequence
  {
    hide AgedByNumber, SortedLevel;
    var l, g: File :| 0 <= l < n && g in levels[..n][l] && e in g.entries;
    var h :| h in levels[n] && f in h.entries;
    assert NewerThan(g.entries, h.entries);
  }

  lemma OneMoreLevel(levels: seq<seq<File>>, n: nat)
    requires n < |levels|
    ensures AllEntries(levels[..n + 1]) == AllEntries(levels[..n]) + Contents(levels[n])
    ensures LevelInputs(levels[..n + 1]) == LevelInputs(levels[..n]) + InputsOf(n, levels[n])
  {
    hide InputsOf;
    var longer := levels[..n + 1];
    assert longer[..n] == levels[..n];
    forall e ensures e in AllEntries(longer) <==> e in AllEntries(levels[..n]) + Contents(levels[n]) {
      if e in AllEntries(longer) {
        var l, f: File :| 0 <= l <= n && f in longer[l] && e in f.entries;
        assert l < n ==> f in levels[..n][l];
      }
      if e in AllEntries(levels[..n]) {
        var l, f: File :| 0 <= l < n && f in levels[..n][l] && e in f.entries;
        assert f in longer[l];
      }
      if e in Contents(levels[n]) {
        var f :| f in levels[n] && e in f.entries;
        assert f in longer[n];
      }
    }
  }

  /** The streams of the upper levels, and then of all. */
  lemma {:induction false} LevelsAreStreams(levels: seq<seq<File>>, n: nat)
    requires WellFormed(levels) && n <= |levels|
    ensures Streams(LevelInputs(levels[..n]), AllEntries(levels[..n]))
  {
    hide Streams, InputsOf, WellFormed, LevelInputs;
    if n == 0 {
      NoLevels();
    } else {
      LevelsAreStreams(levels, n - 1);
      WholeLevel(levels, n - 1);
      forall e, f | e in AllEntries(levels[..n - 1]) && f in Contents(levels[n - 1]) && e.key.user == f.key.user
        ensures e.key.sequence > f.key.sequence
      {
        UpperIsNewer(levels, n - 1, e, f);
      }
      OneMoreLevel(levels, n - 1);
      StreamsTogether(LevelInputs(levels[..n - 1]), AllEntries(levels[..n - 1]), InputsOf(n - 1, levels[n - 1]), Contents(levels[n - 1]));
    }
  }

  lemma NoLevels()
    ensures LevelInputs([]) == [] && AllEntries([]) == {} && Streams([], {})
  {
    NoStreams();
    assert Contents([]) == {};
  }

  // ----- the whole database -----

  /** A state of the database, as reads demand it. */
  ghost predicate Readable(mem: seq<Entry>, imm: Option<seq<Entry>>, levels: seq<seq<File>>) {
    && Sorted(mem) && Sorted(Held(imm)) && WellFormed(levels)
    && NewerThan(mem, Held(imm)) && NewerThanSet(mem, AllEntries(levels)) && NewerThanSet(Held(imm), AllEntries(levels))
    && DistinctSeqs(Everything(mem, imm, levels))
  }

  ghost function Everything(mem: seq<Entry>, imm: Option<seq<Entry>>, levels: seq<seq<File>>): set<Entry> {
    Elements(mem) + Elements(Held(imm)) + AllEntries(levels)
  }

  function Children(mem: seq<Entry>, imm: Option<seq<Entry>>, levels: seq<seq<File>>): seq<seq<Entry>> {
    [mem] + (if imm.Some? then [imm.value] else []) + LevelInputs(levels)
  }

  lemma MemtableStream(es: seq<Entry>)
    requires Sorted(es)
    ensures Streams([es], Elements(es))
  {
    assert forall e :: e in es ==> e in [es][0];
  }

  lemma ImmutableStream(imm: Option<seq<Entry>>)
    requires Sorted(Held(imm))
    ensures Streams(if imm.Some? then [imm.value] else [], Elements(Held(imm)))
  {
    if imm.None? {
      NoLevels();
      assert Elements([]) == {};
    } else {
      MemtableStream(imm.value);
    }
  }

  lemma ChildrenAreStreams(mem: seq<Entry>, imm: Option<seq<Entry>>, levels: seq<seq<File>>)
    requires Readable(mem, imm, levels)
    ensures Streams(Children(mem, imm, levels), Everything(mem, imm, levels))
  {
    hide Streams, WellFormed, DistinctSeqs, Sorted, LevelInputs;
    var second := if imm.Some? then [imm.value] else [];
    MemtableStream(mem);
    ImmutableStream(imm);
    LevelsAreStreams(levels, |levels|);
    assert levels[..|levels|] == levels;
    StreamsTogether([mem], Elements(mem), second, Elements(Held(imm)));
    StreamsTogether([mem] + second, Elements(mem) + Elements(Held(imm)), LevelInputs(levels), AllEntries(levels));
  }

  lemma Deeper(level: nat, files: seq<File>)
    requires level > 0
    ensures InputsOf(level, files) == if files == [] then [] else [Flatten(EntriesOf(files))]
  {
  }

  lemma FirstInputs(files: seq<File>)
    ensures InputsOf(0, files) == EntriesOf(files)
  {
    assert EntriesOf([]) == [];
  }

  lemma FirstLevelInputs(levels: seq<seq<File>>)
    requires levels != []
    ensures LevelInputs(levels[..1]) == EntriesOf(levels[0])
  {
    hide InputsOf, EntriesOf;
    OneMoreLevel(levels, 0);
    NoLevels();
    FirstInputs(levels[0]);
    assert levels[..0] == [] && [] + EntriesOf(levels[0]) == EntriesOf(levels[0]);
  }

  /** Version::AddIterators. */
  method AddIterators(levels: seq<seq<File>>, list: seq<seq<Entry>>) returns (more: seq<seq<Entry>>)
    requires levels != []
    ensures more == list + LevelInputs(levels)
  {
    hide EntriesOf, InputsOf, LevelInputs, Flatten, AllEntries;
    var first := AddFiles(levels[0]);
    FirstLevelInputs(levels);
    more := list + first;
    for level := 1 to |levels|
      invariant more == list + LevelInputs(levels[..level])
    {
      OneMoreLevel(levels, level);
      Deeper(level, levels[level]);
      if levels[level] != [] {
        more := more + [Flatten(EntriesOf(levels[level]))];
      }
    }
    assert levels[..|levels|] == levels;
  }

  method AddFiles(files: seq<File>) returns (streams: seq<seq<Entry>>)
    ensures streams == EntriesOf(files)
  {
    streams := [];
    for i := 0 to |files|
      invariant streams == EntriesOf(files[..i])
    {
      assert EntriesOf(files[..i + 1]) == EntriesOf(files[..i]) + [files[i].entries];
      streams := streams + [files[i].entries];
    }
    assert files[..|files|] == files;
  }

  /** DBImpl::NewInternalIterator: one cursor over every entry there is. (Of a single child the
      program hands out the child itself.) */
  method NewInternalIterator(mem: seq<Entry>, imm: Option<seq<Entry>>, levels: seq<seq<File>>) returns (iter: Merger.MergingIterator)
    requires Readable(mem, imm, levels)
    ensures fresh(iter) && iter.Inv() && iter.Placed()
    ensures Sorted(iter.all) && Elements(iter.all) == Everything(mem, imm, levels)
  {
    ghost var all := EverythingMerges(mem, imm, levels);
    assert levels != [];
    hide Readable, Streams, Merger.Merges;
    var list := [mem];
    if imm.Some? {
      list := list + [imm.value];
    }
    list := AddIterators(levels, list);
    assert list == Children(mem, imm, levels);
    iter := new Merger.MergingIterator(list, all);
  }

  lemma EverythingMerges(mem: seq<Entry>, imm: Option<seq<Entry>>, levels: seq<seq<File>>) returns (all: seq<Entry>)
    requires Readable(mem, imm, levels)
    ensures Merger.Merges(Children(mem, imm, levels), all) && Sorted(all) && Elements(all) == Everything(mem, imm, levels)
  {
    hide Readable, Streams, Children;
    ChildrenAreStreams(mem, imm, levels);
    all := StreamsMerge(Children(mem, imm, levels), Everything(mem, imm, levels));
  }

  // ----- what the cursor shows -----

  /** In key order, exactly the values that reads at the snapshot find. */
  ghost predicate Shows(view: seq<Entry>, es: set<Entry>, s: nat) {
    && (forall i, j :: 0 <= i < j < |view| ==> view[i].key.user < view[j].key.user)
    && forall k, v :: Lookup(es, k, s) == Found(v) <==> exists e :: e in view && e.key.user == k && e.value == v
  }

  /** DBImpl::NewIterator. */
  method NewIterator(mem: seq<Entry>, imm: Option<seq<Entry>>, levels: seq<seq<File>>, snapshot: nat) returns (it: DBIter.DBIter)
    requires Readable(mem, imm, levels)
    ensures fresh(it) && fresh(it.iter) && it.Inv() && !it.valid
    ensures Shows(it.Visible(), Everything(mem, imm, levels), snapshot)
  {
    hide Sorted, Merger.MergingIterator.Inv;
    var iter := NewInternalIterator(mem, imm, levels);
    it := new DBIter.DBIter(iter, snapshot);
    ViewShows(iter.all, Everything(mem, imm, levels), snapshot);
  }

  lemma ViewShows(all: seq<Entry>, es: set<Entry>, s: nat)
    requires Sorted(all) && Elements(all) == es && DistinctSeqs(es)
    ensures Shows(DBIter.View(all, s, |all|), es, s)
  {
    hide Lookup, DBIter.View, Sorted, DistinctSeqs;
    DBIter.ViewSorted(all, s, |all|);
    forall k, v ensures Lookup(es, k, s) == Found(v) <==> exists e :: e in DBIter.View(all, s, |all|) && e.key.user == k && e.value == v {
      DBIter.ViewIsLookup(all, s, k, v);
    }
  }

  type Pair = (UserKey, Value)

  function Pairs(view: seq<Entry>): seq<Pair> {
    seq(|view|, i requires 0 <= i < |view| => (view[i].key.user, view[i].value))
  }

  /** The pairs that reads at the snapshot find, in key order. */
  ghost predicate Listing(pairs: seq<Pair>, es: set<Entry>, s: nat) {
    && (forall i, j :: 0 <= i < j < |pairs| ==> pairs[i].0 < pairs[j].0)
    && forall k, v :: (k, v) in pairs <==> Lookup(es, k, s) == Found(v)
  }

  lemma PairsList(view: seq<Entry>, es: set<Entry>, s: nat)
    requires Shows(view, es, s)
    ensures Listing(Pairs(view), es, s)
  {
    hide Lookup;
    forall k, v ensures (k, v) in Pairs(view) <==> Lookup(es, k, s) == Found(v) {
      if (k, v) in Pairs(view) {
        var i :| 0 <= i < |view| && Pairs(view)[i] == (k, v);
        assert view[i] in view;
      }
      if e :| e in view && e.key.user == k && e.value == v {
        var i :| 0 <= i < |view| && view[i] == e;
        assert Pairs(view)[i] == (k, v);
      }
    }
  }

  lemma IsListed(pairs: seq<Pair>, es: set<Entry>, s: nat, p: Pair)
    requires Listing(pairs, es, s)
    ensures p in pairs <==> Lookup(es, p.0, s) == Found(p.1)
  {
    hide Lookup;
    var (k, v) := p;
    assert p == (k, v);
    assert (k, v) in pairs <==> Lookup(es, k, s) == Found(v);
  }

  /** There is one such list. */
  lemma ListingIsUnique(a: seq<Pair>, b: seq<Pair>, es: set<Entry>, s: nat)
    requires Listing(a, es, s) && Listing(b, es, s)
    ensures a == b
  {
    hide Lookup;
    forall p ensures p in a <==> p in b {
      IsListed(a, es, s, p);
      IsListed(b, es, s, p);
    }
    SameSorted(a, b);
  }

  lemma {:induction false} SameSorted(a: seq<Pair>, b: seq<Pair>)
    requires (forall i, j :: 0 <= i < j < |a| ==> a[i].0 < a[j].0) && forall i, j :: 0 <= i < j < |b| ==> b[i].0 < b[j].0
    requires forall p :: p in a <==> p in b
    ensures a == b
  {
    SameEmpty(a, b);
    if a != [] {
      assert a[0] in b && b[0] in a;
      assert a[0] == b[0];
      forall p ensures p in a[1..] <==> p in b[1..] {
        InTail(a, p);
        InTail(b, p);
      }
      SameSorted(a[1..], b[1..]);
      assert a == [a[0]] + a[1..] && b == [b[0]] + b[1..];
    }
  }

  lemma SameEmpty(a: seq<Pair>, b: seq<Pair>)
    requires forall p :: p in a <==> p in b
    ensures a == [] <==> b == []
  {
    if a != [] {
      assert a[0] in b;
    }
    if b != [] {
      assert b[0] in a;
    }
  }

  lemma InTail(a: seq<Pair>, p: Pair)
    requires a != [] && forall i, j :: 0 <= i < j < |a| ==> a[i].0 < a[j].0
    ensures p in a[1..] <==> p in a && p != a[0]
  {
    assert a == [a[0]] + a[1..];
  }

  lemma OneMorePair(view: seq<Entry>, n: nat)
    requires n < |view|
    ensures Pairs(view[..n + 1]) == Pairs(view[..n]) + [(view[n].key.user, view[n].value)]
  {
  }

  lemma OnePairMore(view: seq<Entry>, n: nat)
    requires n < |view|
    ensures Pairs(view[n..]) == [(view[n].key.user, view[n].value)] + Pairs(view[n + 1..])
  {
  }

  lemma NoPairs(view: seq<Entry>)
    ensures Pairs(view[..0]) == [] && Pairs(view[|view|..]) == [] && view[..|view|] == view && view[0..] == view
  {
  }

  /** From the first pair on ... */
  method ScanForward(mem: seq<Entry>, imm: Option<seq<Entry>>, levels: seq<seq<File>>, snapshot: nat) returns (pairs: seq<Pair>)
    requires Readable(mem, imm, levels)
    ensures Listing(pairs, Everything(mem, imm, levels), snapshot)
  {
    hide Shows, Listing, Readable, Everything, Pairs, Merger.MergingIterator.Inv, DBIter.DBIter.Inv, DBIter.DBIter.Position, DBIter.DBIter.Visible;
    var it := NewIterator(mem, imm, levels, snapshot);
    ghost var view := it.Visible();
    it.SeekToFirst();
    pairs := [];
    NoPairs(view);
    while it.valid
      invariant fresh(it) && fresh(it.iter) && it.Inv() && it.Visible() == view
      invariant |pairs| <= |view| && pairs == Pairs(view[..|pairs|])
      invariant if it.valid then |pairs| < |view| && it.Position() == |pairs| else |pairs| == |view|
      decreases |view| - |pairs|
    {
      var k := it.Key();
      var v := it.Value();
      OneMorePair(view, |pairs|);
      pairs := pairs + [(k, v)];
      it.Next();
    }
    PairsList(view, Everything(mem, imm, levels), snapshot);
  }

  /** ... or from the last on backwards, a scan lists what the lookups find. */
  method ScanBackward(mem: seq<Entry>, imm: Option<seq<Entry>>, levels: seq<seq<File>>, snapshot: nat) returns (pairs: seq<Pair>)
    requires Readable(mem, imm, levels)
    ensures Listing(pairs, Everything(mem, imm, levels), snapshot)
  {
    hide Shows, Listing, Readable, Everything, Pairs, Merger.MergingIterator.Inv, DBIter.DBIter.Inv, DBIter.DBIter.Position, DBIter.DBIter.Visible;
    var it := NewIterator(mem, imm, levels, snapshot);
    ghost var view := it.Visible();
    it.SeekToLast();
    pairs := [];
    NoPairs(view);
    while it.valid
      invariant fresh(it) && fresh(it.iter) && it.Inv() && it.Visible() == view
      invariant |pairs| <= |view| && pairs == Pairs(view[|view| - |pairs|..])
      invariant if it.valid then |pairs| < |view| && it.Position() == |view| - |pairs| - 1 else |pairs| == |view|
      decreases |view| - |pairs|
    {
      var k := it.Key();
      var v := it.Value();
      OnePairMore(view, |view| - |pairs| - 1);
      pairs := [(k, v)] + pairs;
      it.Prev();
    }
    PairsList(view, Everything(mem, imm, levels), snapshot);
  }
}
