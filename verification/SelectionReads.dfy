/** What the choice of input files means for reads: with the files SetupOtherInputs picks, a
    compaction can change the reads of one user key only, the one at which the lower inputs
    end while their level goes on with it. */
module SelectionReads {
  import opened Store
  import opened VersionGet
  import opened CompactionWork
  import opened CompactionReads
  import opened InputSelection

  /** Entries of the files a compaction at `level` does not take. */
  ghost function Unselected(levels: seq<seq<File>>, level: nat, in0: seq<File>, in1: seq<File>): set<Entry> {
    set l, f, e | 0 <= l < |levels| && f in levels[l] && e in f.entries && LeftOut(level, in0, in1, l, f) :: e
  }

  ghost predicate LeftOut(level: nat, in0: seq<File>, in1: seq<File>, l: nat, f: File) {
    !(l == level && f in in0) && !(l == level + 1 && f in in1)
  }

  /** The entry's place in its file. */
  lemma InFile(f: File, e: Entry)
    requires GoodFile(f) && e in f.entries
    ensures !Less(e.key, f.smallest) && !Less(f.largest, e.key)
    ensures f.smallest.user <= e.key.user <= f.largest.user
  {
    GoodFileSpans(f);
  }

  /** Of two entries of one user key, the one that comes first is newer. */
  lemma FirstIsNewer(es: set<Entry>, e: Entry, d: Entry)
    requires DistinctSeqs(es) && e in es && d in es
    requires Less(e.key, d.key) && e.key.user == d.key.user
    ensures e.key.sequence > d.key.sequence
  {
    assert e != d;
  }

  lemma EarlierFileIsNewer(files: seq<File>, m: nat, n: nat, es: set<Entry>)
    requires SortedLevel(files) && m < n < |files| && DistinctSeqs(es)
    requires forall e :: e in files[m].entries || e in files[n].entries ==> e in es
    ensures NewerThan(files[m].entries, files[n].entries)
  {
    LevelOrder(files, m, n);
    LevelOrder(files, n, n);
    forall e, d | e in files[m].entries && d in files[n].entries && e.key.user == d.key.user
      ensures e.key.sequence > d.key.sequence
    {
      InFile(files[m], e);
      InFile(files[n], d);
      FirstIsNewer(es, e, d);
    }
  }

  /** The user key at which the chosen files of a level end while the level goes on with it. */
  ghost predicate SplitKey(files: seq<File>, sel: seq<File>, k: UserKey) {
    exists key, g :: IsLargest(sel, key) && g in files && Boundary(g, key) && key.user == k
  }

  /** There is at most one, and none exactly if the choice is closed. */
  lemma OneSplitKey(files: seq<File>, sel: seq<File>)
    ensures forall k, k' :: SplitKey(files, sel, k) && SplitKey(files, sel, k') ==> k == k'
    ensures BoundaryClosed(files, sel) <==> forall k :: !SplitKey(files, sel, k)
  {
    forall key, key' | IsLargest(sel, key) && IsLargest(sel, key') ensures key == key' {
      LargestIsUnique(sel, key, key');
    }
    forall key, g | IsLargest(sel, key) && g in files && Boundary(g, key) ensures SplitKey(files, sel, key.user) {
    }
  }

  /** Entries of `es` are newer than those of `fs` wherever they share a user key that is not
      split. */
  ghost predicate NewerButAt(es: seq<Entry>, fs: seq<Entry>, files: seq<File>, sel: seq<File>) {
    forall e, f :: e in es && f in fs && e.key.user == f.key.user ==>
      e.key.sequence > f.key.sequence || SplitKey(files, sel, e.key.user)
  }

  /** A file after a run shares no user key with it but the split one. */
  lemma AfterRun(files: seq<File>, i: nat, j: nat, n: nat, m: nat)
    requires SortedLevel(files) && i <= n < j <= m < |files|
    ensures NewerButAt(files[m].entries, files[n].entries, files, files[i..j])
  {
    var key := files[j - 1].largest;
    RunLargest(files, i, j);
    LevelOrder(files, j - 1, m);
    LevelOrder(files, n, j - 1);
    forall e, d | e in files[m].entries && d in files[n].entries && e.key.user == d.key.user
      ensures SplitKey(files, files[i..j], e.key.user)
    {
      InFile(files[m], e);
      InFile(files[n], d);
      assert Boundary(files[m], key) && files[m] in files;
    }
  }

  lemma RunLargest(files: seq<File>, i: nat, j: nat)
    requires SortedLevel(files) && i < j <= |files|
    ensures IsLargest(files[i..j], files[j - 1].largest)
  {
    var run := files[i..j];
    assert run[j - 1 - i] == files[j - 1];
    forall f | f in run ensures !Less(files[j - 1].largest, f.largest) {
      var n :| 0 <= n < |run| && run[n] == f;
      LevelOrder(files, i + n, j - 1);
    }
  }

  lemma InRun(files: seq<File>, i: nat, j: nat, m: nat)
    requires i <= j <= |files| && m < |files|
    ensures i <= m < j ==> files[m] in files[i..j]
  {
    assert i <= m < j ==> files[i..j][m - i] == files[m];
  }

  lemma PlaceInRun(files: seq<File>, sel: seq<File>, f: File) returns (i: nat, j: nat, n: nat)
    requires IsRun(files, sel) && f in sel
    ensures i <= n < j <= |files| && sel == files[i..j] && files[n] == f && f in files
  {
    var p :| 0 <= p < |sel| && sel[p] == f;
    i, j :| 0 <= i < j <= |files| && sel == files[i..j];
    n := AtPlace(files, i, j, p);
  }

  lemma AtPlace(files: seq<File>, i: nat, j: nat, p: nat) returns (n: nat)
    requires i <= j <= |files| && p < j - i
    ensures n == i + p && files[i..j][p] == files[n] && files[n] in files
  {
    n := i + p;
  }

  lemma NewerIsButAt(es: seq<Entry>, fs: seq<Entry>, files: seq<File>, sel: seq<File>)
    requires NewerThan(es, fs)
    ensures NewerButAt(es, fs, files, sel)
  {
  }

  /** Siblings left out of a run are newer where they share a user key other than the split one. */
  lemma SiblingsOfRun(files: seq<File>, sel: seq<File>, g: File, f: File, es: set<Entry>)
    requires SortedLevel(files) && IsRun(files, sel)
    requires g in files && g !in sel && f in sel
    requires DistinctSeqs(es) && forall h, e :: h in files && e in h.entries ==> e in es
    ensures NewerButAt(g.entries, f.entries, files, sel)
  {
    hide SortedLevel, DistinctSeqs, NewerButAt, NewerThan;
    var i, j, n := PlaceInRun(files, sel, f);
    var m :| 0 <= m < |files| && files[m] == g;
    InRun(files, i, j, m);
    if m < i {
      EarlierFileIsNewer(files, m, n, es);
      NewerIsButAt(files[m].entries, f.entries, files, sel);
    } else {
      AfterRun(files, i, j, n, m);
    }
  }

  lemma NoSplitMeansNewer(es: seq<Entry>, fs: seq<Entry>, files: seq<File>, sel: seq<File>)
    requires NewerButAt(es, fs, files, sel) && BoundaryClosed(files, sel)
    ensures NewerThan(es, fs)
  {
    hide SplitKey;
    OneSplitKey(files, sel);
  }

  lemma SiblingsOfCluster(files: seq<File>, sel: seq<File>, g: File, f: File)
    requires IsCluster(files, sel) && forall h :: h in files ==> GoodFile(h)
    requires g in files && g !in sel && f in sel
    ensures NewerThan(g.entries, f.entries)
  {
    var lo, hi :| Closed(files, lo, hi) && sel == Overlapping(files, lo, hi);
    OverlappingMember(files, lo, hi, g);
    OverlappingMember(files, lo, hi, f);
    forall e, d | e in g.entries && d in f.entries ensures e.key.user != d.key.user {
      InFile(g, e);
      InFile(f, d);
    }
  }

  /** A lower file that was not picked holds no user key of the upper inputs. */
  lemma BelowUpper(below: seq<File>, in0: seq<File>, in1: seq<File>, g: File, f: File, smallest: InternalKey, largest: InternalKey)
    requires PicksBelow(below, in0, in1) && IsSmallest(in0, smallest) && IsLargest(in0, largest)
    requires g in below && g !in in1 && f in in0 && GoodFile(g) && GoodFile(f)
    ensures NewerThan(g.entries, f.entries)
  {
    OverlappingMember(below, At(smallest.user), At(largest.user), g);
    forall e, d | e in g.entries && d in f.entries ensures e.key.user != d.key.user {
      InFile(g, e);
      InFile(f, d);
    }
  }

  /** A selection the pickers and SetupOtherInputs can come up with. */
  ghost predicate Selection(levels: seq<seq<File>>, level: nat, in0: seq<File>, in1: seq<File>) {
    && level + 1 < |levels|
    && Shape(level, levels[level], in0) && BoundaryClosed(levels[level], in0)
    && PicksBelow(levels[level + 1], in0, in1)
    && in0 != [] && (forall f :: f in in0 ==> f in levels[level])
  }

  lemma LowerIsRun(levels: seq<seq<File>>, level: nat, in0: seq<File>, in1: seq<File>, smallest: InternalKey, largest: InternalKey)
    requires Selection(levels, level, in0, in1) && SortedLevel(levels[level + 1])
    requires IsSmallest(in0, smallest) && IsLargest(in0, largest)
    ensures in1 == [] || IsRun(levels[level + 1], in1)
    ensures forall f :: f in in1 ==> f in levels[level + 1]
  {
    var i, j := OverlappingRun(levels[level + 1], At(smallest.user), At(largest.user));
    forall f | f in in1 ensures f in levels[level + 1] {
      OverlappingMember(levels[level + 1], At(smallest.user), At(largest.user), f);
    }
  }

  /** Every file a compaction leaves at or above its lower level is newer than the files it
      takes wherever they share a user key; in the lower level itself the key at which the
      choice ends may be split. */
  lemma LeftBehindIsNewer(levels: seq<seq<File>>, level: nat, in0: seq<File>, in1: seq<File>, l: nat, g: File, f: File)
    requires WellFormed(levels) && DistinctSeqs(AllEntries(levels)) && Selection(levels, level, in0, in1)
    requires l <= level + 1 && g in levels[l] && LeftOut(level, in0, in1, l, g)
    requires f in in0 || f in in1
    ensures l <= level ==> NewerThan(g.entries, f.entries)
    ensures NewerButAt(g.entries, f.entries, levels[level + 1], in1)
  {
    hide SortedLevel, GoodFile, BoundaryClosed, PicksBelow, IsRun, IsCluster, AgedByNumber, IsSmallest, IsLargest, DistinctSeqs, SplitKey;
    var es := AllEntries(levels);
    var smallest, largest := Ends(in0);
    LowerIsRun(levels, level, in0, in1, smallest, largest);
    LevelFilesGood(levels, level);
    LevelFilesGood(levels, level + 1);
    if f in in0 {
      if l == level + 1 {
        BelowUpper(levels[level + 1], in0, in1, g, f, smallest, largest);
      } else if l == level && level == 0 {
        SiblingsOfCluster(levels[0], in0, g, f);
      } else if l == level {
        SiblingsOfRun(levels[level], in0, g, f, es);
        NoSplitMeansNewer(g.entries, f.entries, levels[level], in0);
      }
    } else if l == level + 1 {
      SiblingsOfRun(levels[level + 1], in1, g, f, es);
    }
  }

  lemma LevelFilesGood(levels: seq<seq<File>>, l: nat)
    requires WellFormed(levels) && l < |levels|
    ensures forall f :: f in levels[l] ==> GoodFile(f)
  {
    if l > 0 {
      forall f | f in levels[l] ensures GoodFile(f) {
        var m :| 0 <= m < |levels[l]| && levels[l][m] == f;
        LevelOrder(levels[l], m, m);
      }
    }
  }

  lemma {:induction false} Ends(files: seq<File>) returns (smallest: InternalKey, largest: InternalKey)
    requires files != []
    ensures IsSmallest(files, smallest) && IsLargest(files, largest)
  {
    var last := files[|files| - 1];
    smallest, largest := last.smallest, last.largest;
    if |files| > 1 {
      var s, l := Ends(files[..|files| - 1]);
      smallest := if Less(s, smallest) then s else smallest;
      largest := if Less(largest, l) then l else largest;
      assert files == files[..|files| - 1] + [last];
    }
  }

  /** The compaction theorem for the files actually chosen. `mem` holds the memtables. Only
      the reads of a split key can change, and they do exactly if its newest entry is a marker
      of the input that no deeper file protects, over a value in the files left out. */
  lemma SelectionPreservesReads(c: Compaction, levels: seq<seq<File>>, level: nat, in0: seq<File>, in1: seq<File>,
                                input: seq<Entry>, snap: nat, mem: set<Entry>)
    requires c.files == levels && c.level == level && WellFormed(levels)
    requires Selection(levels, level, in0, in1)
    requires Sorted(input) && Elements(input) == Contents(in0) + Contents(in1)
    requires DistinctSeqs(mem + AllEntries(levels))
    requires forall e, f :: e in mem && f in AllEntries(levels) && e.key.user == f.key.user ==> e.key.sequence > f.key.sequence
    ensures
      var rest := mem + Unselected(levels, level, in0, in1);
      && Before(input, rest) == mem + AllEntries(levels)
      && (forall k, s: nat :: s >= snap && !SplitKey(levels[level + 1], in1, k) ==>
            Lookup(After(c, input, snap, rest), k, s) == Lookup(mem + AllEntries(levels), k, s))
      && ((forall k, s: nat :: s >= snap ==>
             Lookup(After(c, input, snap, rest), k, s) == Lookup(mem + AllEntries(levels), k, s))
          <==> forall k :: SplitKey(levels[level + 1], in1, k) ==> !Resurrects(c, input, snap, rest, k))
  {
    hide WellFormed, Selection, DistinctSeqs, Sorted, SplitKey, Resurrects, Lookup;
    var rest := mem + Unselected(levels, level, in0, in1);
    LowerInLevel(levels, level, in0, in1);
    InputIsInLevels(levels, level, in0, in1);
    assert Before(input, rest) == mem + AllEntries(levels);
    forall k | !SplitKey(levels[level + 1], in1, k) ensures !Resurrects(c, input, snap, rest, k) {
      UnsplitKey(c, levels, level, in0, in1, input, snap, mem, k);
    }
    forall k, s: nat | s >= snap && !SplitKey(levels[level + 1], in1, k)
      ensures Lookup(After(c, input, snap, rest), k, s) == Lookup(mem + AllEntries(levels), k, s)
    {
      ReadUnchanged(c, input, snap, rest, k, s);
    }
    CompactionPreservesReads(c, input, snap, rest);
  }

  lemma UnsplitKey(c: Compaction, levels: seq<seq<File>>, level: nat, in0: seq<File>, in1: seq<File>,
                   input: seq<Entry>, snap: nat, mem: set<Entry>, k: UserKey)
    requires c.files == levels && c.level == level && WellFormed(levels)
    requires Selection(levels, level, in0, in1) && !SplitKey(levels[level + 1], in1, k)
    requires Elements(input) == Contents(in0) + Contents(in1) && DistinctSeqs(mem + AllEntries(levels))
    requires forall e, f :: e in mem && f in AllEntries(levels) && e.key.user == f.key.user ==> e.key.sequence > f.key.sequence
    ensures !Resurrects(c, input, snap, mem + Unselected(levels, level, in0, in1), k)
  {
    hide WellFormed, Selection, DistinctSeqs, SplitKey, Resurrects;
    var left := Unselected(levels, level, in0, in1);
    var deeper := set l, f, e | level + 2 <= l < |levels| && f in levels[l] && e in f.entries :: e;
    var upper := left - deeper;
    assert mem + left == (mem + upper) + deeper;
    forall e, i | e in mem + upper && i in input && e.key.user == i.key.user == k ensures e.key.sequence > i.key.sequence {
      assert i in Contents(in0) + Contents(in1) by { assert i in Elements(input); }
      UpperIsNewer(levels, level, in0, in1, mem, e, i);
    }
    forall e | e in deeper ensures Covered(c.files, c.level, e.key.user) {
      var l, f :| level + 2 <= l < |levels| && f in levels[l] && e in f.entries;
      LevelFilesGood(levels, l);
      InFile(f, e);
      var n :| 0 <= n < |levels[l]| && levels[l][n] == f;
      assert InRange(levels[l][n], e.key.user);
    }
    ClosedKey(c, input, snap, mem + upper, deeper, k);
  }

  lemma InputIsInLevels(levels: seq<seq<File>>, level: nat, in0: seq<File>, in1: seq<File>)
    requires WellFormed(levels) && Selection(levels, level, in0, in1)
    ensures Contents(in0) + Contents(in1) + Unselected(levels, level, in0, in1) == AllEntries(levels)
  {
    hide *;
    LowerInLevel(levels, level, in0, in1);
    forall e ensures e in AllEntries(levels) <==> e in Contents(in0) + Contents(in1) + Unselected(levels, level, in0, in1) {
      TakenOrLeft(levels, level, in0, in1, e);
    }
  }

  lemma LowerInLevel(levels: seq<seq<File>>, level: nat, in0: seq<File>, in1: seq<File>)
    requires WellFormed(levels) && Selection(levels, level, in0, in1)
    ensures level + 1 < |levels| && SortedLevel(levels[level + 1]) && (in1 == [] || IsRun(levels[level + 1], in1))
    ensures (forall f :: f in in0 ==> f in levels[level]) && forall f :: f in in1 ==> f in levels[level + 1]
  {
    hide NewerThan, SortedLevel, AgedByNumber, Shape, BoundaryClosed, PicksBelow, IsRun;
    var smallest, largest := Ends(in0);
    LowerIsRun(levels, level, in0, in1, smallest, largest);
  }

  lemma TakenOrLeft(levels: seq<seq<File>>, level: nat, in0: seq<File>, in1: seq<File>, e: Entry)
    requires level + 1 < |levels|
    requires (forall f :: f in in0 ==> f in levels[level]) && forall f :: f in in1 ==> f in levels[level + 1]
    ensures e in AllEntries(levels) <==> e in Contents(in0) + Contents(in1) + Unselected(levels, level, in0, in1)
  {
    if e in AllEntries(levels) {
      var l, f: File :| 0 <= l < |levels| && f in levels[l] && e in f.entries;
      assert f in in0 || f in in1 || LeftOut(level, in0, in1, l, f);
    }
    if e in Contents(in0) + Contents(in1) {
      var f :| (f in in0 || f in in1) && e in f.entries;
      var l := if f in in0 then level else level + 1;
      assert f in levels[l];
    }
  }

  lemma UpperIsNewer(levels: seq<seq<File>>, level: nat, in0: seq<File>, in1: seq<File>, mem: set<Entry>, e: Entry, i: Entry)
    requires WellFormed(levels) && DistinctSeqs(mem + AllEntries(levels))
    requires Selection(levels, level, in0, in1) && !SplitKey(levels[level + 1], in1, e.key.user)
    requires forall e, f :: e in mem && f in AllEntries(levels) && e.key.user == f.key.user ==> e.key.sequence > f.key.sequence
    requires e in mem || exists l, g :: 0 <= l < |levels| && l <= level + 1 && g in levels[l] && e in g.entries && LeftOut(level, in0, in1, l, g)
    requires i in Contents(in0) + Contents(in1) && e.key.user == i.key.user
    ensures e.key.sequence > i.key.sequence
  {
    hide WellFormed, Selection, SplitKey;
    InputIsInLevels(levels, level, in0, in1);
    if e !in mem {
      var l, g :| 0 <= l < |levels| && l <= level + 1 && g in levels[l] && e in g.entries && LeftOut(level, in0, in1, l, g);
      var f :| (f in in0 || f in in1) && i in f.entries;
      assert DistinctSeqs(AllEntries(levels));
      LeftBehindIsNewer(levels, level, in0, in1, l, g, f);
    }
  }

  // ----- the condition is needed -----

  function Table(number: nat, es: seq<Entry>): File
    requires es != []
  {
    File(number, |es|, es[0].key, es[|es| - 1].key, es)
  }

  const NEW := Entry(InternalKey(1.0, 9, Put), "new")
  const OLD := Entry(InternalKey(1.0, 1, Put), "old")
  const MARKER := Entry(InternalKey(2.0, 5, Deletion), "")
  const GONE := Entry(InternalKey(2.0, 3, Put), "gone")

  const UPPER := Table(7, [NEW])
  const LOWER := Table(4, [OLD, MARKER])
  const NEIGHBOUR := Table(5, [GONE])

  /** Two lower files split within user key 2, the first ending in its deletion marker. */
  function SplitLevels(): seq<seq<File>> {
    [[], [UPPER], [LOWER, NEIGHBOUR], [], [], [], []]
  }

  const SPLIT_INPUT := [NEW, OLD, MARKER]

  lemma SplitFiles(l: nat, f: File)
    ensures l < |SplitLevels()| && f in SplitLevels()[l] <==> (l == 1 && f == UPPER) || (l == 2 && (f == LOWER || f == NEIGHBOUR))
    ensures UPPER.entries == [NEW] && LOWER.entries == [OLD, MARKER] && NEIGHBOUR.entries == [GONE]
  {
  }

  lemma SplitEntries(e: Entry)
    ensures e in AllEntries(SplitLevels()) <==> e in {NEW, OLD, MARKER, GONE}
    ensures e in Unselected(SplitLevels(), 1, [UPPER], [LOWER]) <==> e == GONE
  {
    var levels := SplitLevels();
    SplitFiles(1, UPPER);
    SplitFiles(2, LOWER);
    SplitFiles(2, NEIGHBOUR);
    assert LeftOut(1, [UPPER], [LOWER], 2, NEIGHBOUR);
    if e in AllEntries(levels) {
      var l, f: File :| 0 <= l < |levels| && f in levels[l] && e in f.entries;
      SplitFiles(l, f);
    }
    if e in Unselected(levels, 1, [UPPER], [LOWER]) {
      var l, f: File :| 0 <= l < |levels| && f in levels[l] && e in f.entries && LeftOut(1, [UPPER], [LOWER], l, f);
      SplitFiles(l, f);
      assert UPPER in [UPPER] && LOWER in [LOWER];
    }
    if e in {NEW, OLD, MARKER, GONE} {
      var l, f := if e == NEW then 1 else 2, if e == NEW then UPPER else if e == GONE then NEIGHBOUR else LOWER;
      assert f in levels[l] && e in f.entries;
    }
  }

  lemma SplitTables()
    ensures GoodFile(UPPER) && GoodFile(LOWER) && GoodFile(NEIGHBOUR)
    ensures NewerThan(UPPER.entries, LOWER.entries) && NewerThan(UPPER.entries, NEIGHBOUR.entries)
    ensures SortedLevel([LOWER, NEIGHBOUR]) && SortedLevel([UPPER])
  {
    assert GoodFile(LOWER);
    assert Less(LOWER.largest, NEIGHBOUR.smallest);
  }

  lemma SplitIsWellFormed()
    ensures WellFormed(SplitLevels()) && DistinctSeqs(AllEntries(SplitLevels()))
  {
    var levels := SplitLevels();
    SplitTables();
    hide GoodFile, NewerThan, SortedLevel, UPPER, LOWER, NEIGHBOUR;
    forall l | 0 < l < |levels| ensures SortedLevel(levels[l]) {
      assert levels[l] in {[], [UPPER], [LOWER, NEIGHBOUR]};
      NoFiles();
    }
    forall l, l', f: File, g: File | 0 <= l < l' < |levels| && f in levels[l] && g in levels[l'] ensures NewerThan(f.entries, g.entries) {
      SplitFiles(l, f);
      SplitFiles(l', g);
    }
    SplitDistinct();
  }

  lemma NoFiles()
    ensures SortedLevel([])
  {
  }

  lemma SplitDistinct()
    ensures DistinctSeqs(AllEntries(SplitLevels()))
  {
    forall e ensures e in AllEntries(SplitLevels()) <==> e in {NEW, OLD, MARKER, GONE} {
      SplitEntries(e);
    }
    hide AllEntries, SplitLevels;
  }

  lemma SplitUpper()
    ensures IsSmallest([UPPER], UPPER.smallest) && IsLargest([UPPER], UPPER.largest)
    ensures Shape(1, [UPPER], [UPPER]) && BoundaryClosed([UPPER], [UPPER])
  {
    var upper := [UPPER];
    SplitTables();
    assert upper[0..1] == upper;
    assert !Less(UPPER.largest, UPPER.smallest);
  }

  lemma SplitLower()
    ensures Overlapping([LOWER, NEIGHBOUR], At(UPPER.smallest.user), At(UPPER.largest.user)) == [LOWER]
    ensures !BoundaryClosed([LOWER, NEIGHBOUR], [LOWER])
  {
    var below, lo, hi := [LOWER, NEIGHBOUR], At(UPPER.smallest.user), At(UPPER.largest.user);
    assert below[..1] == [LOWER] && [LOWER][..0] == [];
    assert Overlapping([LOWER], lo, hi) == [LOWER];
    assert IsLargest([LOWER], LOWER.largest) && NEIGHBOUR in below && Boundary(NEIGHBOUR, LOWER.largest);
  }

  /** SetupOtherInputs takes only the first of the two lower files. */
  lemma SplitSelection()
    ensures Selection(SplitLevels(), 1, [UPPER], [LOWER])
    ensures !BoundaryClosed([LOWER, NEIGHBOUR], [LOWER])
  {
    hide Shape, BoundaryClosed, PicksBelow, IsSmallest, IsLargest, Overlapping, UPPER, LOWER, NEIGHBOUR;
    SplitUpper();
    SplitLower();
    PicksBelowHolds([LOWER, NEIGHBOUR], [UPPER], [LOWER], UPPER.smallest, UPPER.largest);
    assert SplitLevels()[1] == [UPPER] && SplitLevels()[2] == [LOWER, NEIGHBOUR];
  }

  lemma SplitBefore(es: set<Entry>, snap: nat)
    requires es == {NEW, OLD, MARKER, GONE} && snap >= 9
    ensures DistinctSeqs(es) && Newest(es, 2.0, snap, MARKER) && Lookup(es, 2.0, snap) == NotFound
  {
    LookupIs(es, 2.0, snap, MARKER);
  }

  lemma SplitDrops(c: Compaction, snap: nat)
    requires c.files == SplitLevels() && c.level == 1 && snap >= 9
    ensures |SPLIT_INPUT| == 3 && SPLIT_INPUT[2] == MARKER && !Survives(c, SPLIT_INPUT, snap, 2)
    ensures Sorted(SPLIT_INPUT) && Elements(SPLIT_INPUT) == {NEW, OLD, MARKER}
  {
    assert !Covered(c.files, 1, 2.0);
    hide Covered, SplitLevels;
    assert Obsolete(c, snap, MARKER);
  }

  /** Compacting them drops the marker, and the deleted value comes back. */
  lemma SplitResurrects(c: Compaction, snap: nat)
    requires c.files == SplitLevels() && c.level == 1 && snap >= 9
    ensures WellFormed(SplitLevels()) && DistinctSeqs(AllEntries(SplitLevels()))
    ensures
      var rest := Unselected(SplitLevels(), 1, [UPPER], [LOWER]);
      && Lookup(Before(SPLIT_INPUT, rest), 2.0, snap) == NotFound
      && Lookup(After(c, SPLIT_INPUT, snap, rest), 2.0, snap) == Found("gone")
  {
    hide Unselected, SplitLevels, Survives, Newest, Sorted, Elements, Lookup, SPLIT_INPUT, WellFormed, AllEntries;
    SplitIsWellFormed();
    var rest := Unselected(SplitLevels(), 1, [UPPER], [LOWER]);
    forall e ensures e in rest <==> e == GONE {
      SplitEntries(e);
    }
    assert rest == {GONE};
    SplitDrops(c, snap);
    SplitBefore(Before(SPLIT_INPUT, rest), snap);
    ReadsFallThrough(c, SPLIT_INPUT, snap, rest, 2.0, snap, 2);
    AloneIsFound();
  }

  lemma AloneIsFound()
    ensures forall snap: nat :: snap >= 9 ==> Lookup({GONE}, 2.0, snap) == Found("gone")
  {
    forall snap: nat | snap >= 9 ensures Lookup({GONE}, 2.0, snap) == Found("gone") {
      LookupIs({GONE}, 2.0, snap, GONE);
    }
  }
}
