/** A compaction from its picked files to the installed version: the inputs are completed and
    merged, what survives is written to new files, and one edit replaces the ones by the
    others. */
module CompactionRun {
  import opened Store
  import opened VersionGet
  import opened CompactionWork
  import opened CompactionReads
  import opened InputSelection
  import opened SelectionReads
  import opened VersionStep
  import opened FlushRace
  import opened EntryStreams
  import Manifest
  import Merger

  // ----- merging the inputs -----

  /** MakeInputIterator. */
  function Children(level: nat, in0: seq<File>, in1: seq<File>): seq<seq<Entry>> {
    InputsOf(level, in0) + InputsOf(level + 1, in1)
  }

  lemma UpperIsNewerThanLower(levels: seq<seq<File>>, level: nat, in0: seq<File>, in1: seq<File>, e: Entry, f: Entry)
    requires WellFormed(levels) && Selection(levels, level, in0, in1)
    requires e in Contents(in0) && f in Contents(in1) && e.key.user == f.key.user
    ensures e.key.sequence > f.key.sequence
  {
    LowerInLevel(levels, level, in0, in1);
    var g :| g in in0 && e in g.entries;
    var h :| h in in1 && f in h.entries;
    assert NewerThan(g.entries, h.entries);
  }

  /** The chosen files have a merge, and it is all their entries in order. */
  lemma InputsMerge(levels: seq<seq<File>>, level: nat, in0: seq<File>, in1: seq<File>) returns (all: seq<Entry>)
    requires WellFormed(levels) && Selection(levels, level, in0, in1)
    ensures Merger.Merges(Children(level, in0, in1), all)
    ensures Sorted(all) && Elements(all) == Contents(in0) + Contents(in1)
  {
    hide NewerThan, AgedByNumber, BoundaryClosed, PicksBelow, SortedLevel, IsCluster, IsRun, Streams, InputsOf;
    LowerInLevel(levels, level, in0, in1);
    LevelStreams(level, levels[level], in0);
    LevelStreams(level + 1, levels[level + 1], in1);
    forall e, f | e in Contents(in0) && f in Contents(in1) && e.key.user == f.key.user ensures e.key.sequence > f.key.sequence {
      UpperIsNewerThanLower(levels, level, in0, in1, e, f);
    }
    StreamsTogether(InputsOf(level, in0), Contents(in0), InputsOf(level + 1, in1), Contents(in1));
    all := StreamsMerge(Children(level, in0, in1), Contents(in0) + Contents(in1));
  }

  /** What the compaction reads from its merged inputs, from the first entry on. */
  method ReadInputs(levels: seq<seq<File>>, level: nat, in0: seq<File>, in1: seq<File>) returns (input: seq<Entry>)
    requires WellFormed(levels) && Selection(levels, level, in0, in1)
    ensures Sorted(input) && Elements(input) == Contents(in0) + Contents(in1)
  {
    hide *;
    ghost var all := InputsMerge(levels, level, in0, in1);
    input := ReadAll(Children(level, in0, in1), all);
  }

  method ReadAll(children: seq<seq<Entry>>, ghost all: seq<Entry>) returns (input: seq<Entry>)
    requires Merger.Merges(children, all)
    ensures input == all
  {
    hide Merger.Merges, Merger.CutAt;
    var it := new Merger.MergingIterator(children, all);
    it.SeekToFirst();
    input := [];
    while it.Valid()
      invariant it.Inv() && it.all == all && it.pos <= |all| && input == all[..it.pos]
      decreases |all| - it.pos
    {
      var e := it.Current();
      input := input + [e];
      it.Next();
    }
  }

  // ----- the outputs and the edit -----

  /** One table for each output, under a number of its own. */
  method MakeTables(outputs: seq<seq<Entry>>, numbers: nat -> nat, ghost kept: seq<Entry>) returns (outs: seq<File>)
    requires Sorted(kept) && Flatten(outputs) == kept && forall o :: o in outputs ==> o != []
    ensures Cut(kept, outs) && forall i :: 0 <= i < |outs| ==> outs[i].number == numbers(i)
  {
    hide Sorted, Flatten;
    outs := [];
    for i := 0 to |outputs|
      invariant |outs| == i && EntriesOf(outs) == outputs[..i]
      invariant forall j :: 0 <= j < i ==> outs[j].number == numbers(j) && GoodFile(outs[j])
    {
      assert outputs[i] in outputs;
      OutputSorted(outputs, i, kept);
      outs := outs + [Table(numbers(i), outputs[i])];
    }
    assert outputs[..|outputs|] == outputs;
  }

  lemma {:induction false} OutputSorted(outputs: seq<seq<Entry>>, i: nat, kept: seq<Entry>)
    requires Sorted(kept) && Flatten(outputs) == kept && i < |outputs|
    ensures Sorted(outputs[i])
    decreases |outputs|
  {
    var n := |outputs| - 1;
    var front := Flatten(outputs[..n]);
    assert kept == front + outputs[n] && kept[..|front|] == front && kept[|front|..] == outputs[n];
    if i < n {
      OutputSorted(outputs[..n], i, front);
    }
  }

  /** File numbers tell the files of a level apart. */
  ghost predicate Numbered(levels: seq<seq<File>>) {
    forall l, f, g :: 0 <= l < |levels| && f in levels[l] && g in levels[l] && f.number == g.number ==> f == g
  }

  /** The numbers given to new files are not in use, and differ. */
  ghost predicate FreshFor(levels: seq<seq<File>>, numbers: nat -> nat) {
    && (forall i, j :: numbers(i) == numbers(j) ==> i == j)
    && forall i, l, f :: 0 <= l < |levels| && f in levels[l] ==> numbers(i) != f.number
  }

  function Deletions(level: nat, files: seq<File>): seq<(nat, nat)> {
    seq(|files|, i requires 0 <= i < |files| => (level, files[i].number))
  }

  function Additions(level: nat, files: seq<File>): seq<(nat, File)> {
    seq(|files|, i requires 0 <= i < |files| => (level, files[i]))
  }

  /** AddInputDeletions, and a new file for each output. */
  function CompactionEdit(level: nat, in0: seq<File>, in1: seq<File>, outs: seq<File>): Manifest.Edit {
    Manifest.Edit(Deletions(level, in0) + Deletions(level + 1, in1), Additions(level + 1, outs))
  }

  lemma EditAt(level: nat, in0: seq<File>, in1: seq<File>, outs: seq<File>, l: nat)
    ensures
      var edit := CompactionEdit(level, in0, in1, outs);
      && Manifest.AddedAt(edit, l) == (if l == level + 1 then Manifest.Files(outs) else {})
      && forall n :: n in Manifest.DeletedAt(edit, l) <==>
           (l == level && exists f :: f in in0 && f.number == n) || (l == level + 1 && exists f :: f in in1 && f.number == n)
  {
    var edit := CompactionEdit(level, in0, in1, outs);
    forall f ensures f in Manifest.AddedAt(edit, l) <==> l == level + 1 && f in outs {
      if l == level + 1 && f in outs {
        var i :| 0 <= i < |outs| && outs[i] == f;
        assert edit.added[i] == (l, f);
      }
    }
    forall n ensures n in Manifest.DeletedAt(edit, l) <==> (l, n) in edit.deleted {
    }
    forall n ensures (l, n) in edit.deleted <==> (l, n) in Deletions(level, in0) || (l, n) in Deletions(level + 1, in1) {
    }
    DeletionsAre(level, in0, l);
    DeletionsAre(level + 1, in1, l);
  }

  lemma DeletionsAre(level: nat, files: seq<File>, l: nat)
    ensures forall n :: (l, n) in Deletions(level, files) <==> l == level && exists f :: f in files && f.number == n
  {
    forall n ensures (l, n) in Deletions(level, files) <==> l == level && exists f :: f in files && f.number == n {
      if l == level && exists f :: f in files && f.number == n {
        var f :| f in files && f.number == n;
        var i :| 0 <= i < |files| && files[i] == f;
        assert Deletions(level, files)[i] == (l, n);
      }
    }
  }

  ghost predicate NewTables(current: seq<seq<File>>, numbers: nat -> nat, outs: seq<File>) {
    FreshFor(current, numbers) && forall i :: 0 <= i < |outs| ==> outs[i].number == numbers(i)
  }

  lemma NewTablesDiffer(current: seq<seq<File>>, numbers: nat -> nat, outs: seq<File>)
    requires NewTables(current, numbers, outs)
    ensures forall f, g :: f in outs && g in outs && f.number == g.number ==> f == g
    ensures forall l, f, g :: 0 <= l < |current| && f in current[l] && g in outs ==> f.number != g.number
  {
    forall f, g | f in outs && g in outs && f.number == g.number ensures f == g {
      var i :| 0 <= i < |outs| && outs[i] == f;
      var j :| 0 <= j < |outs| && outs[j] == g;
    }
  }

  /** The edit's numbers are fresh at every level, and it does there what Installed says. */
  lemma EditInstalls(current: seq<seq<File>>, level: nat, in0: seq<File>, in1: seq<File>, outs: seq<File>, numbers: nat -> nat, l: nat)
    requires InputsIn(current, level, in0, in1) && Numbered(current) && NewTables(current, numbers, outs) && l < |current|
    ensures
      var edit := CompactionEdit(level, in0, in1, outs);
      && Manifest.FreshNumbers(Manifest.Files(current[l]), [edit], l)
      && Manifest.Applied(Manifest.Files(current[l]), edit, l) == FilesAfter(current, level, in0, in1, outs, l)
  {
    hide NewTables, CompactionEdit, Manifest.AddedAt, Manifest.DeletedAt;
    var edit := CompactionEdit(level, in0, in1, outs);
    var fs, adds, dels := Manifest.Files(current[l]), Manifest.AddedAt(edit, l), Manifest.DeletedAt(edit, l);
    EditAt(level, in0, in1, outs, l);
    NewTablesDiffer(current, numbers, outs);
    assert [edit][..0] == [] && Manifest.AllAdded([], l) == {};
    forall f ensures f in Manifest.Applied(fs, edit, l) <==> f in FilesAfter(current, level, in0, in1, outs, l) {
      FileInstalled(current, level, in0, in1, outs, l, f, dels, Manifest.Numbers(adds));
    }
  }

  /** One file: an old one goes exactly if it is an input, a new one stays. */
  lemma FileInstalled(current: seq<seq<File>>, level: nat, in0: seq<File>, in1: seq<File>, outs: seq<File>, l: nat, f: File,
                      dels: set<nat>, addNumbers: set<nat>)
    requires InputsIn(current, level, in0, in1) && Numbered(current) && l < |current|
    requires forall l, f, g :: 0 <= l < |current| && f in current[l] && g in outs ==> f.number != g.number
    requires forall n :: n in dels <==> (l == level && exists f :: f in in0 && f.number == n) || (l == level + 1 && exists f :: f in in1 && f.number == n)
    requires forall n :: n in addNumbers <==> l == level + 1 && exists f :: f in outs && f.number == n
    ensures (f in current[l] || (l == level + 1 && f in outs)) && f.number !in dels - addNumbers
            <==> f in FilesAfter(current, level, in0, in1, outs, l)
  {
    if f in current[l] {
      assert f.number !in addNumbers;
    }
    if l == level + 1 && f in outs && f !in current[l] {
      assert f.number in addNumbers;
    }
  }

  /** InstallCompactionResults. */
  method InstallResults(current: Manifest.Version, level: nat, in0: seq<File>, in1: seq<File>, outs: seq<File>, ghost numbers: nat -> nat)
    returns (after: Manifest.Version)
    requires InputsIn(current, level, in0, in1) && Numbered(current) && NewTables(current, numbers, outs)
    requires forall l :: 0 <= l < |current| ==> Manifest.Ordered(current[l])
    ensures Installed(current, level, in0, in1, outs, after) && Numbered(after)
  {
    hide InputsIn, Numbered, NewTables, Manifest.Ordered, Manifest.Arranged, Manifest.Replay, Manifest.FreshNumbers, Manifest.Applied, FilesAfter;
    LevelsInRange(current, level, in0, in1, outs);
    forall l | 0 <= l < |current| ensures Manifest.Arranged(current[l]) {
      Manifest.OrderedIsArranged(current[l]);
    }
    after := Manifest.LogAndApply(current, CompactionEdit(level, in0, in1, outs));
    forall l | 0 <= l < |current|
      ensures Manifest.Ordered(after[l]) && Manifest.Files(after[l]) == FilesAfter(current, level, in0, in1, outs, l)
    {
      EditInstalls(current, level, in0, in1, outs, numbers, l);
      Manifest.OneEdit(current[l], CompactionEdit(level, in0, in1, outs), l);
    }
    StaysNumbered(current, level, in0, in1, outs, numbers, after);
  }

  lemma LevelsInRange(current: Manifest.Version, level: nat, in0: seq<File>, in1: seq<File>, outs: seq<File>)
    requires InputsIn(current, level, in0, in1)
    ensures level + 1 < |current| && Manifest.ValidLevels(CompactionEdit(level, in0, in1, outs))
  {
  }

  lemma StaysNumbered(current: seq<seq<File>>, level: nat, in0: seq<File>, in1: seq<File>, outs: seq<File>, numbers: nat -> nat, after: seq<seq<File>>)
    requires Numbered(current) && NewTables(current, numbers, outs) && Installed(current, level, in0, in1, outs, after)
    ensures Numbered(after)
  {
    hide NewTables, Manifest.Ordered;
    NewTablesDiffer(current, numbers, outs);
    forall l, f | 0 <= l < |after| && f in after[l] ensures f in current[l] || f in outs {
      assert f in Manifest.Files(after[l]);
    }
  }

  // ----- the whole compaction -----

  /** From the files a picker starts with to the version that is installed. `current` is the
      version by then: memtables may have been flushed meanwhile, as `vs`, `ps` and `files` tell.
      It is well formed exactly if no output reaches across a table flushed to the lower level,
      and reads answer as before, a split key's exactly if it loses no deletion marker over a
      value left out. */
  method RunCompaction(levels: Manifest.Version, level: nat, inputs0: seq<File>, expandedLimit: nat, snap: nat,
                       stopBefore: nat -> bool, full: nat -> bool, numbers: nat -> nat, current: Manifest.Version,
                       ghost vs: seq<seq<seq<File>>>, ghost ps: seq<nat>, ghost files: seq<File>, ghost mem: set<Entry>)
    returns (after: Manifest.Version, ghost c: Compaction, ghost in0: seq<File>, ghost in1: seq<File>, ghost input: seq<Entry>, ghost outs: seq<File>)
    requires WellFormed(levels) && level + 1 < |levels| && snap < MAX_SEQUENCE
    requires inputs0 != [] && (forall f :: f in inputs0 ==> f in levels[level]) && Shape(level, levels[level], inputs0)
    requires Flushes(vs, ps, files) && vs[0] == levels && Current(vs) == current
    requires Numbered(current) && FreshFor(current, numbers) && forall l :: 0 <= l < |current| ==> Manifest.Ordered(current[l])
    requires DistinctSeqs(mem + Contents(files) + AllEntries(levels))
    requires forall e, f :: e in mem + Contents(files) && f in AllEntries(levels) && e.key.user == f.key.user ==> e.key.sequence > f.key.sequence
    ensures Selection(levels, level, in0, in1) && c.files == levels && c.level == level
    ensures Sorted(input) && Elements(input) == Contents(in0) + Contents(in1) && Cut(Kept(c, input, snap, |input|), outs)
    ensures Installed(current, level, in0, in1, outs, after) && Numbered(after)
    ensures |ps| == |files| && (WellFormed(after) <==> NoneAcross(level, outs, ps, files))
    ensures forall k, s: nat :: s >= snap && !SplitKey(levels[level + 1], in1, k) ==>
              Lookup(mem + AllEntries(after), k, s) == Lookup(mem + Contents(files) + AllEntries(levels), k, s)
    ensures (forall k, s: nat :: s >= snap ==>
               Lookup(mem + AllEntries(after), k, s) == Lookup(mem + Contents(files) + AllEntries(levels), k, s))
       <==> forall k :: SplitKey(levels[level + 1], in1, k) ==>
              !Resurrects(c, input, snap, mem + Contents(files) + Unselected(levels, level, in0, in1), k)
  {
    hide WellFormed, Shape, Selection, Flushes, Numbered, FreshFor, DistinctSeqs, Sorted, SortedLevel, Cut, Installed, NoneAcross,
         SplitKey, Lookup, Resurrects, Manifest.Ordered, AllEntries, Unselected, InputsIn;
    FlushesShape(vs, ps, files);
    var upper, lower;
    upper, lower := SelectInputs(levels, level, inputs0, expandedLimit);
    var merged := ReadInputs(levels, level, upper, lower);
    var compaction, tables := WriteOutputs(levels, level, merged, snap, stopBefore, full, numbers);
    StillThere(vs, ps, files, level, upper, lower);
    after := InstallResults(current, level, upper, lower, tables, numbers);
    c, in0, in1, input, outs := compaction, upper, lower, merged, tables;
    WhatItDid(c, vs, ps, files, level, in0, in1, input, snap, mem, outs, after);
  }

  method SelectInputs(levels: seq<seq<File>>, level: nat, inputs0: seq<File>, expandedLimit: nat) returns (in0: seq<File>, in1: seq<File>)
    requires WellFormed(levels) && level + 1 < |levels|
    requires inputs0 != [] && (forall f :: f in inputs0 ==> f in levels[level]) && Shape(level, levels[level], inputs0)
    ensures Selection(levels, level, in0, in1)
  {
    hide WellFormed, Shape, BoundaryClosed, PicksBelow, GoodFile;
    forall l, f | 0 <= l < |levels| && f in levels[l] ensures GoodFile(f) {
      LevelFilesGood(levels, l);
    }
    ghost var narrow, wide;
    in0, in1, narrow, wide := SetupOtherInputs(levels, level, inputs0, expandedLimit);
    StartsWithInputs(levels[level], inputs0, narrow);
    assert narrow[0] in in0;
  }

  lemma {:induction false} StartsWithInputs(files: seq<File>, base: seq<File>, out: seq<File>)
    requires Extends(files, base, out) && base != []
    ensures out != []
  {
  }

  method WriteOutputs(levels: Manifest.Version, level: nat, input: seq<Entry>, snap: nat, stopBefore: nat -> bool, full: nat -> bool, numbers: nat -> nat)
    returns (c: Compaction, outs: seq<File>)
    requires WellFormed(levels) && Sorted(input) && snap < MAX_SEQUENCE
    ensures c.files == levels && c.level == level && Cut(Kept(c, input, snap, |input|), outs)
    ensures forall i :: 0 <= i < |outs| ==> outs[i].number == numbers(i)
  {
    hide WellFormed, Sorted, SortedLevel, Cut;
    forall l | 0 < l < |levels| ensures SortedLevel(levels[l]) {
      LevelIsSorted(levels, l);
    }
    c := new Compaction(level, levels);
    var outputs, _ := DoCompactionWork(c, input, snap, seq(|input|, stopBefore), seq(|input|, full));
    KeptSorted(c, input, snap, |input|);
    outs := MakeTables(outputs, numbers, Kept(c, input, snap, |input|));
  }

  lemma StillThere(vs: seq<seq<seq<File>>>, ps: seq<nat>, files: seq<File>, level: nat, in0: seq<File>, in1: seq<File>)
    requires Flushes(vs, ps, files) && |vs| > 0 && WellFormed(vs[0]) && Selection(vs[0], level, in0, in1)
    ensures InputsIn(Current(vs), level, in0, in1)
  {
    hide WellFormed, Selection, Flushes, InputsIn;
    InputsKnown(vs[0], level, in0, in1);
    FlushesKeep(vs, ps, files, level, in0, in1);
  }

  lemma WhatItDid(c: Compaction, vs: seq<seq<seq<File>>>, ps: seq<nat>, files: seq<File>, level: nat, in0: seq<File>, in1: seq<File>,
                  input: seq<Entry>, snap: nat, mem: set<Entry>, outs: seq<File>, after: seq<seq<File>>)
    requires Flushes(vs, ps, files) && |vs| > 0 && |ps| == |files|
    requires c.files == vs[0] && c.level == level && WellFormed(vs[0]) && Selection(vs[0], level, in0, in1)
    requires Sorted(input) && Elements(input) == Contents(in0) + Contents(in1)
    requires DistinctSeqs(mem + Contents(files) + AllEntries(vs[0]))
    requires forall e, f :: e in mem + Contents(files) && f in AllEntries(vs[0]) && e.key.user == f.key.user ==> e.key.sequence > f.key.sequence
    requires Cut(Kept(c, input, snap, |input|), outs) && Installed(Current(vs), level, in0, in1, outs, after)
    ensures WellFormed(after) <==> NoneAcross(level, outs, ps, files)
    ensures forall k, s: nat :: s >= snap && !SplitKey(vs[0][level + 1], in1, k) ==>
              Lookup(mem + AllEntries(after), k, s) == Lookup(mem + Contents(files) + AllEntries(vs[0]), k, s)
    ensures (forall k, s: nat :: s >= snap ==>
               Lookup(mem + AllEntries(after), k, s) == Lookup(mem + Contents(files) + AllEntries(vs[0]), k, s))
       <==> forall k :: SplitKey(vs[0][level + 1], in1, k) ==>
              !Resurrects(c, input, snap, mem + Contents(files) + Unselected(vs[0], level, in0, in1), k)
  {
    hide WellFormed, Selection, Flushes, Sorted, SortedLevel, Cut, Installed, NoneAcross, SplitKey, Lookup, Resurrects, AllEntries, Unselected, GoodOutputs;
    KeptSorted(c, input, snap, |input|);
    CutIsSorted(Kept(c, input, snap, |input|), outs);
    OutputsFromInputs(c, in0, in1, input, snap, outs);
    assert DistinctSeqs(AllEntries(vs[0]));
    hide DistinctSeqs;
    FlushesDuringCompaction(vs, ps, files, level, in0, in1, outs, after);
    FlushesKeepReads(c, vs, ps, files, level, in0, in1, input, snap, mem, outs, after);
  }
}
