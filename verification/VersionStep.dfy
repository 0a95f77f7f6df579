/** A whole compaction as a step between versions: the next version is well formed again, and
    reads of the database cannot tell that it was installed. */
module VersionStep {
  import opened Store
  import opened VersionGet
  import opened CompactionWork
  import opened CompactionReads
  import opened InputSelection
  import opened SelectionReads
  import Manifest

  /** Two files of one sorted level. */
  ghost predicate Separate(f: File, g: File) {
    Less(f.largest, g.smallest) || Less(g.largest, f.smallest)
  }

  ghost predicate AllSeparate(fs: set<File>) {
    && (forall f :: f in fs ==> GoodFile(f))
    && forall f, g :: f in fs && g in fs && f != g ==> Separate(f, g)
  }

  lemma SortedIsSeparate(fs: seq<File>)
    requires SortedLevel(fs)
    ensures AllSeparate(Manifest.Files(fs))
  {
    forall f, g | f in fs && g in fs && f != g ensures Separate(f, g) {
      var i, j :| 0 <= i < |fs| && 0 <= j < |fs| && fs[i] == f && fs[j] == g;
    }
  }

  lemma SeparateIsSorted(fs: seq<File>)
    requires Manifest.Ordered(fs) && AllSeparate(Manifest.Files(fs))
    ensures SortedLevel(fs)
  {
    forall i, j | 0 <= i < j < |fs| ensures Less(fs[i].largest, fs[j].smallest) {
      var f, g := fs[i], fs[j];
      assert Manifest.Before(f, g) && f in Manifest.Files(fs) && g in Manifest.Files(fs);
      Manifest.BeforeIsTotal(f, g);
      GoodFileSpans(f);
      GoodFileSpans(g);
    }
    forall i | 0 <= i < |fs| ensures GoodFile(fs[i]) {
      assert fs[i] in Manifest.Files(fs);
    }
  }

  ghost predicate OneSide(first: bool, g: File, f: File) {
    if first then Less(g.largest, f.smallest) else Less(f.largest, g.smallest)
  }

  lemma SideOfUpper(in0: seq<File>, smallest: InternalKey, largest: InternalKey, g: File, first: bool, f: File)
    requires IsSmallest(in0, smallest) && IsLargest(in0, largest) && f in in0
    requires if first then EndsBefore(g, At(smallest.user)) else StartsAfter(g, At(largest.user))
    ensures OneSide(first, g, f)
  {
    assert !Less(f.smallest, smallest) && !Less(largest, f.largest);
  }

  lemma SideOfRun(below: seq<File>, i: nat, j: nat, m: nat, f: File)
    requires SortedLevel(below) && i <= j <= |below| && m < |below| && (m < i || j <= m) && f in below[i..j]
    ensures OneSide(m < i, below[m], f)
  {
    var n :| 0 <= n < |below[i..j]| && below[i..j][n] == f;
    assert below[i + n] == f;
    if m < i {
      LevelOrder(below, m, i + n);
    } else {
      LevelOrder(below, i + n, m);
    }
  }

  /** A lower file that was not picked lies to one side of all the compaction's input. */
  lemma ToOneSide(levels: seq<seq<File>>, level: nat, in0: seq<File>, in1: seq<File>, g: File) returns (first: bool)
    requires WellFormed(levels) && Selection(levels, level, in0, in1)
    requires g in levels[level + 1] && g !in in1
    ensures forall f :: f in in0 || f in in1 ==> OneSide(first, g, f)
  {
    hide NewerThan, AgedByNumber, Shape, BoundaryClosed, SortedLevel, GoodFile, Overlapping, OneSide;
    var below := levels[level + 1];
    var smallest, largest := Ends(in0);
    var i, j := OverlappingRun(below, At(smallest.user), At(largest.user));
    assert in1 == below[i..j];
    hide IsSmallest, IsLargest, PicksBelow;
    var m :| 0 <= m < |below| && below[m] == g;
    SelectionReads.InRun(below, i, j, m);
    first := m < i;
    forall f | f in in0 || f in in1 ensures OneSide(first, g, f) {
      if f in in0 {
        SideOfUpper(in0, smallest, largest, g, first, f);
      } else {
        SideOfRun(below, i, j, m, f);
      }
    }
  }

  lemma EntryToOneSide(f: File, e: Entry, g: File, first: bool)
    requires GoodFile(f) && e in f.entries && OneSide(first, g, f)
    ensures if first then Less(g.largest, e.key) else Less(e.key, g.smallest)
  {
    InFile(f, e);
  }

  /** A new lower file and an old one that stays. */
  lemma OutputIsSeparate(levels: seq<seq<File>>, level: nat, in0: seq<File>, in1: seq<File>, o: File, g: File)
    requires WellFormed(levels) && Selection(levels, level, in0, in1)
    requires GoodFile(o) && forall e :: e in o.entries ==> e in Contents(in0) + Contents(in1)
    requires g in levels[level + 1] && g !in in1
    ensures Separate(o, g)
  {
    hide WellFormed, Selection, OneSide, Sorted;
    var first := ToOneSide(levels, level, in0, in1, g);
    var a, z := o.entries[0], o.entries[|o.entries| - 1];
    assert a in o.entries && z in o.entries;
    EntryAside(levels, level, in0, in1, a, g, first);
    EntryAside(levels, level, in0, in1, z, g, first);
  }

  lemma EntryAside(levels: seq<seq<File>>, level: nat, in0: seq<File>, in1: seq<File>, e: Entry, g: File, first: bool)
    requires WellFormed(levels) && Selection(levels, level, in0, in1) && e in Contents(in0) + Contents(in1)
    requires forall f :: f in in0 || f in in1 ==> OneSide(first, g, f)
    ensures if first then Less(g.largest, e.key) else Less(e.key, g.smallest)
  {
    hide WellFormed, Selection, OneSide, GoodFile, Less;
    var f :| (f in in0 || f in in1) && e in f.entries;
    InputFileGood(levels, level, in0, in1, f);
    EntryToOneSide(f, e, g, first);
  }

  lemma InputFileGood(levels: seq<seq<File>>, level: nat, in0: seq<File>, in1: seq<File>, f: File)
    requires WellFormed(levels) && Selection(levels, level, in0, in1) && (f in in0 || f in in1)
    ensures GoodFile(f)
  {
    hide NewerThan, AgedByNumber, Shape, BoundaryClosed, PicksBelow, SortedLevel;
    LowerInLevel(levels, level, in0, in1);
    LevelFilesGood(levels, level);
    LevelFilesGood(levels, level + 1);
  }

  /** `after` is `levels` with the inputs of a compaction replaced by its outputs, each level
      arranged as the builder arranges it. */
  ghost predicate Installed(levels: seq<seq<File>>, level: nat, in0: seq<File>, in1: seq<File>, outs: seq<File>, after: seq<seq<File>>) {
    && |after| == |levels| && level + 1 < |levels|
    && forall l :: 0 <= l < |levels| ==>
         Manifest.Ordered(after[l]) && Manifest.Files(after[l]) == FilesAfter(levels, level, in0, in1, outs, l)
  }

  ghost function FilesAfter(levels: seq<seq<File>>, level: nat, in0: seq<File>, in1: seq<File>, outs: seq<File>, l: nat): set<File>
    requires l < |levels|
  {
    if l == level then Manifest.Files(levels[l]) - Manifest.Files(in0)
    else if l == level + 1 then Manifest.Files(levels[l]) - Manifest.Files(in1) + Manifest.Files(outs)
    else Manifest.Files(levels[l])
  }

  /** The outputs of a compaction hold only entries of its inputs. */
  ghost predicate GoodOutputs(in0: seq<File>, in1: seq<File>, outs: seq<File>) {
    SortedLevel(outs) && forall e :: e in Contents(outs) ==> e in Contents(in0) + Contents(in1)
  }

  lemma OutputsAreSeparate(levels: seq<seq<File>>, level: nat, in0: seq<File>, in1: seq<File>, outs: seq<File>)
    requires WellFormed(levels) && Selection(levels, level, in0, in1) && GoodOutputs(in0, in1, outs)
    ensures AllSeparate(Manifest.Files(levels[level + 1]) - Manifest.Files(in1) + Manifest.Files(outs))
  {
    hide WellFormed, Separate, GoodFile, SortedLevel;
    assert level + 1 < |levels| by { LowerInLevel(levels, level, in0, in1); }
    hide Selection;
    var kept := Manifest.Files(levels[level + 1]) - Manifest.Files(in1);
    LevelIsSorted(levels, level + 1);
    SortedIsSeparate(levels[level + 1]);
    SortedIsSeparate(outs);
    forall o, g | o in Manifest.Files(outs) && g in kept ensures Separate(o, g) {
      assert forall e :: e in o.entries ==> e in Contents(outs);
      OutputIsSeparate(levels, level, in0, in1, o, g);
    }
    UnionIsSeparate(kept, Manifest.Files(outs));
  }

  /** Every level below the first is sorted and disjoint again. */
  lemma StaysSorted(levels: seq<seq<File>>, level: nat, in0: seq<File>, in1: seq<File>, outs: seq<File>, after: seq<seq<File>>, l: nat)
    requires WellFormed(levels) && Selection(levels, level, in0, in1) && GoodOutputs(in0, in1, outs)
    requires Installed(levels, level, in0, in1, outs, after) && 0 < l < |after|
    ensures SortedLevel(after[l])
  {
    hide WellFormed, Selection, GoodOutputs, SortedLevel, AllSeparate, Manifest.Ordered;
    LevelIsSorted(levels, l);
    SortedIsSeparate(levels[l]);
    OutputsAreSeparate(levels, level, in0, in1, outs);
    FewerAreSeparate(Manifest.Files(levels[l]), Manifest.Files(in0));
    SeparateIsSorted(after[l]);
  }

  lemma FewerAreSeparate(a: set<File>, b: set<File>)
    requires AllSeparate(a)
    ensures AllSeparate(a - b)
  {
  }

  lemma LevelIsSorted(levels: seq<seq<File>>, l: nat)
    requires WellFormed(levels) && 0 < l < |levels|
    ensures SortedLevel(levels[l])
  {
  }

  lemma UnionIsSeparate(a: set<File>, b: set<File>)
    requires AllSeparate(a) && AllSeparate(b) && forall o, g :: o in b && g in a ==> Separate(o, g)
    ensures AllSeparate(a + b)
  {
  }

  /** The inputs and outputs against every other level. */
  lemma StaysAged(levels: seq<seq<File>>, level: nat, in0: seq<File>, in1: seq<File>, outs: seq<File>, after: seq<seq<File>>,
                  l: nat, l': nat, f: File, g: File)
    requires WellFormed(levels) && DistinctSeqs(AllEntries(levels))
    requires Selection(levels, level, in0, in1) && GoodOutputs(in0, in1, outs)
    requires Installed(levels, level, in0, in1, outs, after)
    requires l < l' < |after| && f in after[l] && g in after[l']
    ensures NewerThan(f.entries, g.entries)
  {
    hide WellFormed, Selection, GoodOutputs, DistinctSeqs, NewerThan;
    FromBefore(levels, level, in0, in1, outs, after, l, f);
    FromBefore(levels, level, in0, in1, outs, after, l', g);
    if l' == level + 1 && g in outs {
      OutputIsOlder(levels, level, in0, in1, outs, l, f, g);
    } else if l == level + 1 && f in outs {
      OutputIsNewer(levels, level, in0, in1, outs, f, l', g);
    } else {
      BeforeAged(levels, l, l', f, g);
    }
  }

  lemma BeforeAged(levels: seq<seq<File>>, l: nat, l': nat, f: File, g: File)
    requires WellFormed(levels) && l < l' < |levels| && f in levels[l] && g in levels[l']
    ensures NewerThan(f.entries, g.entries)
  {
  }

  /** A file of the new version is an output, or was there and was left out. */
  lemma FromBefore(levels: seq<seq<File>>, level: nat, in0: seq<File>, in1: seq<File>, outs: seq<File>, after: seq<seq<File>>,
                   l: nat, f: File)
    requires Installed(levels, level, in0, in1, outs, after) && l < |after| && f in after[l]
    ensures |after| == |levels| && ((l == level + 1 && f in outs) || (f in levels[l] && LeftOut(level, in0, in1, l, f)))
  {
    assert f in Manifest.Files(after[l]);
  }

  lemma OutputIsOlder(levels: seq<seq<File>>, level: nat, in0: seq<File>, in1: seq<File>, outs: seq<File>, l: nat, f: File, o: File)
    requires WellFormed(levels) && DistinctSeqs(AllEntries(levels))
    requires Selection(levels, level, in0, in1) && GoodOutputs(in0, in1, outs)
    requires l <= level < |levels| && f in levels[l] && LeftOut(level, in0, in1, l, f) && o in outs
    ensures NewerThan(f.entries, o.entries)
  {
    hide WellFormed, DistinctSeqs, Selection, GoodOutputs;
    forall e, d | e in f.entries && d in o.entries && e.key.user == d.key.user ensures e.key.sequence > d.key.sequence {
      var h := OutputEntry(in0, in1, outs, o, d);
      LeftBehindIsNewer(levels, level, in0, in1, l, f, h);
    }
  }

  lemma OutputIsNewer(levels: seq<seq<File>>, level: nat, in0: seq<File>, in1: seq<File>, outs: seq<File>, o: File, l: nat, g: File)
    requires WellFormed(levels) && Selection(levels, level, in0, in1) && GoodOutputs(in0, in1, outs)
    requires level + 1 < l < |levels| && g in levels[l] && o in outs
    ensures NewerThan(o.entries, g.entries)
  {
    hide WellFormed, Selection, GoodOutputs;
    forall e, d | e in o.entries && d in g.entries && e.key.user == d.key.user ensures e.key.sequence > d.key.sequence {
      var h := OutputEntry(in0, in1, outs, o, e);
      DeeperIsOlder(levels, level, in0, in1, h, l, g);
    }
  }

  lemma OutputEntry(in0: seq<File>, in1: seq<File>, outs: seq<File>, o: File, e: Entry) returns (f: File)
    requires GoodOutputs(in0, in1, outs) && o in outs && e in o.entries
    ensures (f in in0 || f in in1) && e in f.entries
  {
    assert e in Contents(outs);
    f :| (f in in0 || f in in1) && e in f.entries;
  }

  lemma DeeperIsOlder(levels: seq<seq<File>>, level: nat, in0: seq<File>, in1: seq<File>, h: File, l: nat, g: File)
    requires WellFormed(levels) && Selection(levels, level, in0, in1)
    requires (h in in0 || h in in1) && level + 1 < l < |levels| && g in levels[l]
    ensures NewerThan(h.entries, g.entries)
  {
    LowerInLevel(levels, level, in0, in1);
  }

  lemma StaysNumbered(levels: seq<seq<File>>, level: nat, in0: seq<File>, in1: seq<File>, outs: seq<File>, after: seq<seq<File>>)
    requires WellFormed(levels) && Installed(levels, level, in0, in1, outs, after)
    ensures AgedByNumber(after[0])
  {
    forall f | f in after[0] ensures f in levels[0] {
      assert f in Manifest.Files(after[0]);
    }
    forall i, j | 0 <= i < j < |after[0]| ensures after[0][i].number != after[0][j].number {
      var f, g := after[0][i], after[0][j];
      assert Manifest.Before(f, g);
      Manifest.BeforeIsTotal(f, g);
      assert f in after[0] && g in after[0];
      var m :| 0 <= m < |levels[0]| && levels[0][m] == f;
      var n :| 0 <= n < |levels[0]| && levels[0][n] == g;
    }
  }

  /** A compaction keeps what every read relies on. */
  lemma StaysWellFormed(levels: seq<seq<File>>, level: nat, in0: seq<File>, in1: seq<File>, outs: seq<File>, after: seq<seq<File>>)
    requires WellFormed(levels) && DistinctSeqs(AllEntries(levels))
    requires Selection(levels, level, in0, in1) && GoodOutputs(in0, in1, outs)
    requires Installed(levels, level, in0, in1, outs, after)
    ensures WellFormed(after)
  {
    hide SortedLevel, NewerThan, AgedByNumber, Selection, GoodOutputs, BoundaryClosed, Installed, DistinctSeqs;
    assert |after| == |levels| by { SameHeight(levels, level, in0, in1, outs, after); }
    forall l | 0 < l < |after| ensures SortedLevel(after[l]) {
      StaysSorted(levels, level, in0, in1, outs, after, l);
    }
    StaysNumbered(levels, level, in0, in1, outs, after);
    forall l, l', f: File, g: File | 0 <= l < l' < |after| && f in after[l] && g in after[l'] ensures NewerThan(f.entries, g.entries) {
      StaysAged(levels, level, in0, in1, outs, after, l, l', f, g);
    }
  }

  lemma SameHeight(levels: seq<seq<File>>, level: nat, in0: seq<File>, in1: seq<File>, outs: seq<File>, after: seq<seq<File>>)
    requires Installed(levels, level, in0, in1, outs, after)
    ensures |after| == |levels|
  {
  }

  lemma EntriesAfter(levels: seq<seq<File>>, level: nat, in0: seq<File>, in1: seq<File>, outs: seq<File>, after: seq<seq<File>>, e: Entry)
    requires Installed(levels, level, in0, in1, outs, after)
    ensures e in AllEntries(after) <==> e in Contents(outs) + Unselected(levels, level, in0, in1)
  {
    if e in AllEntries(after) {
      var l, f: File :| 0 <= l < |after| && f in after[l] && e in f.entries;
      assert f in Manifest.Files(after[l]);
      assert f in outs || LeftOut(level, in0, in1, l, f);
    }
    if e in Contents(outs) {
      var f :| f in outs && e in f.entries;
      assert f in Manifest.Files(after[level + 1]);
    }
    if e in Unselected(levels, level, in0, in1) {
      var l, f: File :| 0 <= l < |levels| && f in levels[l] && e in f.entries && LeftOut(level, in0, in1, l, f);
      assert f in Manifest.Files(after[l]);
    }
  }

  /** One compaction, from picked files to installed version: the result is well formed, and
      every read at a snapshot still in use answers as before, a split key's exactly if it
      loses no deletion marker over a value left out. */
  lemma CompactionStep(c: Compaction, levels: seq<seq<File>>, level: nat, in0: seq<File>, in1: seq<File>,
                       input: seq<Entry>, snap: nat, mem: set<Entry>, outs: seq<File>, after: seq<seq<File>>)
    requires c.files == levels && c.level == level && WellFormed(levels)
    requires Selection(levels, level, in0, in1)
    requires Sorted(input) && Elements(input) == Contents(in0) + Contents(in1)
    requires DistinctSeqs(mem + AllEntries(levels))
    requires forall e, f :: e in mem && f in AllEntries(levels) && e.key.user == f.key.user ==> e.key.sequence > f.key.sequence
    requires SortedLevel(outs) && Contents(outs) == Elements(Kept(c, input, snap, |input|))
    requires Installed(levels, level, in0, in1, outs, after)
    ensures WellFormed(after) && AllEntries(after) <= AllEntries(levels)
    ensures forall k, s: nat :: s >= snap && !SplitKey(levels[level + 1], in1, k) ==>
              Lookup(mem + AllEntries(after), k, s) == Lookup(mem + AllEntries(levels), k, s)
    ensures (forall k, s: nat :: s >= snap ==> Lookup(mem + AllEntries(after), k, s) == Lookup(mem + AllEntries(levels), k, s))
       <==> forall k :: SplitKey(levels[level + 1], in1, k) ==>
              !Resurrects(c, input, snap, mem + Unselected(levels, level, in0, in1), k)
  {
    hide WellFormed, Selection, SortedLevel, Installed, Sorted, Lookup, SplitKey, Resurrects;
    var rest := Unselected(levels, level, in0, in1);
    forall e | e in Contents(outs) ensures e in Contents(in0) + Contents(in1) {
      KeptMember(c, input, snap, |input|, e);
      assert e in Elements(input);
    }
    assert DistinctSeqs(AllEntries(levels));
    StaysWellFormed(levels, level, in0, in1, outs, after);
    SelectionPreservesReads(c, levels, level, in0, in1, input, snap, mem);
    InputIsInLevels(levels, level, in0, in1);
    hide AllEntries, Unselected, DistinctSeqs;
    forall e ensures e in AllEntries(after) <==> e in Contents(outs) + rest {
      EntriesAfter(levels, level, in0, in1, outs, after, e);
    }
    assert After(c, input, snap, mem + rest) == mem + AllEntries(after);
  }

  /** A trivial move: one file, nothing below it to merge with, passes down as it is. */
  lemma TrivialMove(levels: seq<seq<File>>, level: nat, f: File, after: seq<seq<File>>)
    requires WellFormed(levels) && DistinctSeqs(AllEntries(levels))
    requires Selection(levels, level, [f], []) && Installed(levels, level, [f], [], [f], after)
    ensures WellFormed(after) && AllEntries(after) == AllEntries(levels)
  {
    hide WellFormed, Selection, Installed, DistinctSeqs, GoodFile;
    InputIsInLevels(levels, level, [f], []);
    assert GoodFile(f) by {
      assert f in [f];
      InputFileGood(levels, level, [f], [], f);
    }
    StaysWellFormed(levels, level, [f], [], [f], after);
    assert Contents([]) == {};
    hide AllEntries, Unselected;
    forall e ensures e in AllEntries(after) <==> e in AllEntries(levels) {
      EntriesAfter(levels, level, [f], [], [f], after, e);
    }
  }
}
