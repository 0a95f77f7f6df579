/** Memtables are flushed while a compaction runs: the tables get their levels from versions
    that still hold the compaction's inputs. When the version installed in the end is well
    formed, whatever its outputs look like, and what reads answer. */
module FlushRace {
  import opened Store
  import opened VersionGet
  import opened CompactionWork
  import opened CompactionReads
  import opened InputSelection
  import opened SelectionReads
  import opened VersionStep
  import opened FlushStep
  import Manifest

  // ----- flushes while a compaction runs -----

  /** One flush: the file is the newest, and its level is picked from the version before it. */
  ghost predicate Flushed(before: seq<seq<File>>, p: nat, file: File, after: seq<seq<File>>) {
    && NewestFile(before, file) && Entered(before, p, file, after)
    && (p > 0 ==> forall l :: 0 <= l <= p ==> !SomeOverlap(before[l], At(file.smallest.user), At(file.largest.user)))
  }

  /** Memtables flushed one after the other; `vs` are the versions in between. */
  ghost predicate Flushes(vs: seq<seq<seq<File>>>, ps: seq<nat>, files: seq<File>)
    decreases |files|
  {
    var n := |files|;
    && |vs| == n + 1 && |ps| == n
    && (n > 0 ==> Flushes(vs[..n], ps[..n - 1], files[..n - 1]) && Flushed(vs[n - 1], ps[n - 1], files[n - 1], vs[n]))
  }

  lemma FlushesShape(vs: seq<seq<seq<File>>>, ps: seq<nat>, files: seq<File>)
    requires Flushes(vs, ps, files)
    ensures |vs| == |files| + 1 && |ps| == |files|
  {
  }

  /** The version current when the last flush is done. */
  function Current(vs: seq<seq<seq<File>>>): seq<seq<File>>
    requires vs != []
  {
    vs[|vs| - 1]
  }

  ghost predicate InputsIn(levels: seq<seq<File>>, level: nat, in0: seq<File>, in1: seq<File>) {
    && level + 1 < |levels|
    && (forall f :: f in in0 ==> f in levels[level]) && forall f :: f in in1 ==> f in levels[level + 1]
  }

  lemma InputsKnown(levels: seq<seq<File>>, level: nat, in0: seq<File>, in1: seq<File>)
    requires WellFormed(levels) && Selection(levels, level, in0, in1)
    ensures InputsIn(levels, level, in0, in1)
  {
    LowerInLevel(levels, level, in0, in1);
  }

  /** A flush leaves the compaction's inputs where they are, and the version well formed. */
  lemma FlushKeeps(before: seq<seq<File>>, p: nat, file: File, after: seq<seq<File>>, level: nat, in0: seq<File>, in1: seq<File>)
    requires WellFormed(before) && Flushed(before, p, file, after) && InputsIn(before, level, in0, in1)
    ensures WellFormed(after) && InputsIn(after, level, in0, in1)
    ensures AllEntries(after) == AllEntries(before) + Elements(file.entries)
  {
    hide WellFormed, SomeOverlap;
    FlushKeepsReads(before, p, file, after, {});
    EntriesEntered(before, p, file, after);
    forall l, f | 0 <= l < |before| && f in before[l] ensures f in after[l] {
      assert f in Manifest.Files(after[l]);
    }
  }

  lemma {:induction false} FlushesKeep(vs: seq<seq<seq<File>>>, ps: seq<nat>, files: seq<File>, level: nat, in0: seq<File>, in1: seq<File>)
    requires Flushes(vs, ps, files) && WellFormed(vs[0]) && InputsIn(vs[0], level, in0, in1)
    ensures WellFormed(Current(vs)) && InputsIn(Current(vs), level, in0, in1)
    ensures AllEntries(Current(vs)) == AllEntries(vs[0]) + Contents(files)
    decreases |files|
  {
    hide WellFormed, InputsIn, AllEntries, Flushed;
    var n := |files|;
    if n == 0 {
      assert Contents(files) == {};
    } else {
      FlushesKeep(vs[..n], ps[..n - 1], files[..n - 1], level, in0, in1);
      FlushKeeps(vs[n - 1], ps[n - 1], files[n - 1], vs[n], level, in0, in1);
      OneMoreFile(files);
    }
  }

  lemma OneMoreFile(files: seq<File>)
    requires files != []
    ensures Contents(files) == Contents(files[..|files| - 1]) + Elements(files[|files| - 1].entries)
  {
    assert files == files[..|files| - 1] + [files[|files| - 1]];
  }

  function Dropping(fs: seq<File>, file: File): seq<File> {
    if fs == [] then [] else if fs[0] == file then Dropping(fs[1..], file) else [fs[0]] + Dropping(fs[1..], file)
  }

  lemma {:induction false} DroppingOrdered(fs: seq<File>, file: File)
    requires Manifest.Ordered(fs)
    ensures Manifest.Ordered(Dropping(fs, file)) && Manifest.Files(Dropping(fs, file)) == Manifest.Files(fs) - {file}
  {
    if fs != [] {
      DroppingOrdered(fs[1..], file);
      Manifest.TailFiles(fs);
      var rest := Dropping(fs[1..], file);
      forall f | f in rest ensures Manifest.Before(fs[0], f) {
        assert f in Manifest.Files(rest) && f in fs[1..];
      }
      assert Manifest.Files([fs[0]] + rest) == {fs[0]} + Manifest.Files(rest);
      assert fs[0] in Manifest.Files(fs);
    }
  }

  /** The version that the compaction would have made without the flush. */
  function Alone(after: seq<seq<File>>, p: nat, file: File): seq<seq<File>> {
    seq(|after|, l requires 0 <= l < |after| => if l == p then Dropping(after[l], file) else after[l])
  }

  lemma AloneIsInstalled(before: seq<seq<File>>, p: nat, file: File, next: seq<seq<File>>,
                         level: nat, in0: seq<File>, in1: seq<File>, outs: seq<File>, after: seq<seq<File>>)
    requires Entered(before, p, file, next) && Installed(next, level, in0, in1, outs, after) && InputsIn(before, level, in0, in1)
    requires file !in outs && forall l :: 0 <= l < |before| ==> file !in before[l]
    ensures Installed(before, level, in0, in1, outs, Alone(after, p, file))
    ensures Entered(Alone(after, p, file), p, file, after)
  {
    hide Manifest.Ordered, Dropping;
    DroppingOrdered(after[p], file);
    forall l | 0 <= l < |before|
      ensures FilesAfter(next, level, in0, in1, outs, l) == FilesAfter(before, level, in0, in1, outs, l) + if l == p then {file} else {}
      ensures file !in FilesAfter(before, level, in0, in1, outs, l)
    {
    }
  }

  lemma OutputSharesNoKey(in0: seq<File>, in1: seq<File>, outs: seq<File>, o: File, file: File)
    requires GoodOutputs(in0, in1, outs) && o in outs && forall f :: f in in0 || f in in1 ==> SharesNoKey(f, file)
    ensures SharesNoKey(o, file)
  {
    forall e, d | e in o.entries && d in file.entries ensures e.key.user != d.key.user {
      var f := OutputEntry(in0, in1, outs, o, e);
    }
  }

  lemma OutputIsOlder(in0: seq<File>, in1: seq<File>, outs: seq<File>, o: File, file: File)
    requires GoodOutputs(in0, in1, outs) && o in outs && forall f :: f in in0 || f in in1 ==> NewerThan(file.entries, f.entries)
    ensures NewerThan(file.entries, o.entries)
  {
    forall e, d | e in file.entries && d in o.entries && e.key.user == d.key.user ensures e.key.sequence > d.key.sequence {
      var f := OutputEntry(in0, in1, outs, o, d);
    }
  }

  /** Everything in the version the compaction made, against the flushed file. */
  lemma FileAfter(levels: seq<seq<File>>, level: nat, in0: seq<File>, in1: seq<File>, outs: seq<File>, alone: seq<seq<File>>, l: nat, f: File)
    requires Installed(levels, level, in0, in1, outs, alone) && l < |alone| && f in alone[l]
    ensures f in levels[l] || (l == level + 1 && f in outs)
  {
    assert f in Manifest.Files(alone[l]);
  }

  lemma StillNewest(levels: seq<seq<File>>, level: nat, in0: seq<File>, in1: seq<File>, outs: seq<File>, alone: seq<seq<File>>, file: File)
    requires InputsIn(levels, level, in0, in1) && GoodOutputs(in0, in1, outs)
    requires Installed(levels, level, in0, in1, outs, alone) && NewestFile(levels, file)
    ensures NewestFile(alone, file)
  {
    hide GoodOutputs, NewerThan, GoodFile;
    forall l, f | 0 <= l < |alone| && f in alone[l] ensures NewerThan(file.entries, f.entries) && (l == 0 ==> f.number < file.number) {
      FileAfter(levels, level, in0, in1, outs, alone, l, f);
      if f !in levels[l] {
        OutputIsOlder(in0, in1, outs, f, file);
      }
    }
  }

  ghost predicate ApartFromAll(outs: seq<File>, file: File) {
    forall o :: o in outs ==> Separate(o, file)
  }

  lemma FitsAlone(levels: seq<seq<File>>, level: nat, in0: seq<File>, in1: seq<File>, outs: seq<File>, alone: seq<seq<File>>, p: nat, file: File)
    requires WellFormed(levels) && InputsIn(levels, level, in0, in1) && GoodOutputs(in0, in1, outs)
    requires Installed(levels, level, in0, in1, outs, alone) && GoodFile(file) && p < |levels|
    requires p > 0 ==> forall l :: 0 <= l <= p ==> !SomeOverlap(levels[l], At(file.smallest.user), At(file.largest.user))
    ensures Fits(alone, p, file) <==> (p == level + 1 ==> ApartFromAll(outs, file))
  {
    hide WellFormed, GoodOutputs, NewerThan, GoodFile, Separate, SharesNoKey, SomeOverlap;
    PickedFits(levels, p, file);
    if p > 0 {
      forall l, f | 0 <= l < p && f in alone[l] ensures SharesNoKey(f, file) {
        FileAfter(levels, level, in0, in1, outs, alone, l, f);
        if f !in levels[l] {
          OutputSharesNoKey(in0, in1, outs, f, file);
        }
      }
      forall f | f in alone[p] ensures f in levels[p] || (p == level + 1 && f in outs) {
        FileAfter(levels, level, in0, in1, outs, alone, p, f);
      }
      if p == level + 1 {
        forall o | o in outs ensures o in alone[p] {
          assert o in Manifest.Files(outs);
          assert o in Manifest.Files(alone[p]);
        }
      }
    }
  }

  /** Taking a file out leaves a version well formed. */
  lemma OneFileLess(before: seq<seq<File>>, p: nat, file: File, after: seq<seq<File>>)
    requires WellFormed(after) && Entered(before, p, file, after)
    requires forall l :: 0 <= l < |before| ==> Manifest.Ordered(before[l])
    ensures WellFormed(before)
  {
    hide SortedLevel, NewerThan, AgedByNumber, GoodFile, Separate, Manifest.Ordered;
    forall l, f | 0 <= l < |before| && f in before[l] ensures f in after[l] {
      assert f in Manifest.Files(before[l]);
      assert f in Manifest.Files(after[l]);
    }
    forall l | 0 < l < |before| ensures SortedLevel(before[l]) {
      LevelIsSorted(after, l);
      SortedIsSeparate(after[l]);
      var all, kept := Manifest.Files(after[l]), Manifest.Files(before[l]);
      assert kept == all - (all - kept);
      FewerAreSeparate(all, all - kept);
      SeparateIsSorted(before[l]);
    }
    FewerAged(before[0], after[0]);
  }

  lemma FewerAged(fewer: seq<File>, files: seq<File>)
    requires AgedByNumber(files) && Manifest.Ordered(fewer) && forall f :: f in fewer ==> f in files
    ensures AgedByNumber(fewer)
  {
    hide GoodFile, NewerThan;
    forall i, j | 0 <= i < j < |fewer| ensures fewer[i].number != fewer[j].number {
      var f, g := fewer[i], fewer[j];
      assert Manifest.Before(f, g);
      Manifest.BeforeIsTotal(f, g);
      OldNumbersDiffer(files, f, g);
    }
  }

  /** Every table that went to the compaction's lower level is apart from all the outputs. */
  ghost predicate NoneAcross(level: nat, outs: seq<File>, ps: seq<nat>, files: seq<File>)
    requires |ps| == |files|
  {
    forall i :: 0 <= i < |files| ==> ps[i] == level + 1 ==> ApartFromAll(outs, files[i])
  }

  lemma NoneAcrossStep(level: nat, outs: seq<File>, ps: seq<nat>, files: seq<File>)
    requires |ps| == |files| > 0
    ensures
      var n := |files| - 1;
      NoneAcross(level, outs, ps, files) <==> NoneAcross(level, outs, ps[..n], files[..n]) && (ps[n] == level + 1 ==> ApartFromAll(outs, files[n]))
  {
  }

  /** Memtables flushed while a compaction runs get their levels from versions that still hold
      its inputs. The version installed in the end is well formed exactly if no output reaches
      across a table that went to the compaction's lower level. */
  lemma {:induction false} FlushesDuringCompaction(vs: seq<seq<seq<File>>>, ps: seq<nat>, files: seq<File>,
                                                   level: nat, in0: seq<File>, in1: seq<File>, outs: seq<File>, after: seq<seq<File>>)
    requires Flushes(vs, ps, files) && WellFormed(vs[0]) && DistinctSeqs(AllEntries(vs[0])) && Selection(vs[0], level, in0, in1)
    requires GoodOutputs(in0, in1, outs) && Installed(Current(vs), level, in0, in1, outs, after)
    ensures WellFormed(after) <==> NoneAcross(level, outs, ps, files)
    decreases |files|
  {
    hide WellFormed, Selection, GoodOutputs, Installed, InputsIn, Entered, Fits, AllEntries, ApartFromAll, NewestFile, SomeOverlap;
    var n := |files|;
    if n == 0 {
      StaysWellFormed(vs[0], level, in0, in1, outs, after);
    } else {
      InputsKnown(vs[0], level, in0, in1);
      var before, p, file := vs[n - 1], ps[n - 1], files[n - 1];
      FlushesKeep(vs[..n], ps[..n - 1], files[..n - 1], level, in0, in1);
      var alone := WithoutFlush(before, p, file, vs[n], level, in0, in1, outs, after);
      FlushesDuringCompaction(vs[..n], ps[..n - 1], files[..n - 1], level, in0, in1, outs, alone);
      NoneAcrossStep(level, outs, ps, files);
      if WellFormed(alone) {
        EnterKeepsWellFormed(alone, p, file, after);
      } else if WellFormed(after) {
        OneFileLess(alone, p, file, after);
      }
    }
  }

  /** The installed version without the last flush. */
  lemma WithoutFlush(before: seq<seq<File>>, p: nat, file: File, next: seq<seq<File>>,
                     level: nat, in0: seq<File>, in1: seq<File>, outs: seq<File>, after: seq<seq<File>>) returns (alone: seq<seq<File>>)
    requires WellFormed(before) && InputsIn(before, level, in0, in1) && GoodOutputs(in0, in1, outs)
    requires Flushed(before, p, file, next) && Installed(next, level, in0, in1, outs, after)
    ensures Installed(before, level, in0, in1, outs, alone) && Entered(alone, p, file, after) && NewestFile(alone, file)
    ensures forall l :: 0 <= l < |alone| ==> Manifest.Ordered(alone[l])
    ensures Fits(alone, p, file) <==> (p == level + 1 ==> ApartFromAll(outs, file))
  {
    hide WellFormed, GoodOutputs, ApartFromAll, NewerThan, SomeOverlap, Manifest.Ordered;
    NewFile(before, level, in0, in1, outs, file);
    AloneIsInstalled(before, p, file, next, level, in0, in1, outs, after);
    alone := Alone(after, p, file);
    StillNewest(before, level, in0, in1, outs, alone, file);
    FitsAlone(before, level, in0, in1, outs, alone, p, file);
  }

  lemma NewFile(levels: seq<seq<File>>, level: nat, in0: seq<File>, in1: seq<File>, outs: seq<File>, file: File)
    requires InputsIn(levels, level, in0, in1) && GoodOutputs(in0, in1, outs) && NewestFile(levels, file)
    ensures file !in outs && forall l :: 0 <= l < |levels| ==> file !in levels[l]
  {
    hide GoodOutputs, NewerThan;
    forall l | 0 <= l < |levels| ensures file !in levels[l] {
      if file in levels[l] {
        NotItself(levels, l, file, file);
      }
    }
    NotNewerThanItself(file);
    if file in outs {
      OutputIsOlder(in0, in1, outs, file, file);
    }
  }

  lemma NotNewerThanItself(file: File)
    requires GoodFile(file)
    ensures !NewerThan(file.entries, file.entries)
  {
    assert file.entries[0] in file.entries;
  }

  /** Reads of the flat store know nothing of it: with the flushed entries in tables, every read
      at a snapshot in use answers as it did with them in memory. */
  lemma FlushesKeepReads(c: Compaction, vs: seq<seq<seq<File>>>, ps: seq<nat>, files: seq<File>,
                         level: nat, in0: seq<File>, in1: seq<File>, input: seq<Entry>, snap: nat, mem: set<Entry>,
                         outs: seq<File>, after: seq<seq<File>>)
    requires Flushes(vs, ps, files) && c.files == vs[0] && c.level == level && WellFormed(vs[0]) && Selection(vs[0], level, in0, in1)
    requires Sorted(input) && Elements(input) == Contents(in0) + Contents(in1)
    requires DistinctSeqs(mem + Contents(files) + AllEntries(vs[0]))
    requires forall e, f :: e in mem + Contents(files) && f in AllEntries(vs[0]) && e.key.user == f.key.user ==> e.key.sequence > f.key.sequence
    requires SortedLevel(outs) && Contents(outs) == Elements(Kept(c, input, snap, |input|))
    requires Installed(Current(vs), level, in0, in1, outs, after)
    ensures forall k, s: nat :: s >= snap && !SplitKey(vs[0][level + 1], in1, k) ==>
              Lookup(mem + AllEntries(after), k, s) == Lookup(mem + Contents(files) + AllEntries(vs[0]), k, s)
    ensures (forall k, s: nat :: s >= snap ==>
               Lookup(mem + AllEntries(after), k, s) == Lookup(mem + Contents(files) + AllEntries(vs[0]), k, s))
       <==> forall k :: SplitKey(vs[0][level + 1], in1, k) ==>
              !Resurrects(c, input, snap, mem + Contents(files) + Unselected(vs[0], level, in0, in1), k)
  {
    hide WellFormed, Selection, Installed, Flushes, SortedLevel, Sorted, Lookup, SplitKey, DistinctSeqs, Resurrects;
    FlushesShape(vs, ps, files);
    OutputsFromInputs(c, in0, in1, input, snap, outs);
    var alone := WithoutFlushes(vs, ps, files, level, in0, in1, outs, after);
    CompactionStep(c, vs[0], level, in0, in1, input, snap, mem + Contents(files), outs, alone);
    assert mem + AllEntries(after) == mem + Contents(files) + AllEntries(alone);
  }

  /** The version the compaction alone would have made. */
  lemma {:induction false} WithoutFlushes(vs: seq<seq<seq<File>>>, ps: seq<nat>, files: seq<File>,
                                          level: nat, in0: seq<File>, in1: seq<File>, outs: seq<File>, after: seq<seq<File>>)
    returns (alone: seq<seq<File>>)
    requires Flushes(vs, ps, files) && WellFormed(vs[0]) && Selection(vs[0], level, in0, in1)
    requires GoodOutputs(in0, in1, outs) && Installed(Current(vs), level, in0, in1, outs, after)
    ensures Installed(vs[0], level, in0, in1, outs, alone) && AllEntries(after) == AllEntries(alone) + Contents(files)
    decreases |files|
  {
    hide WellFormed, Selection, GoodOutputs, Installed, InputsIn, Entered, Fits, AllEntries, ApartFromAll, NewestFile, SomeOverlap;
    var n := |files|;
    if n == 0 {
      alone := after;
      assert Contents(files) == {};
    } else {
      InputsKnown(vs[0], level, in0, in1);
      FlushesKeep(vs[..n], ps[..n - 1], files[..n - 1], level, in0, in1);
      var last := WithoutFlush(vs[n - 1], ps[n - 1], files[n - 1], vs[n], level, in0, in1, outs, after);
      EntriesEntered(last, ps[n - 1], files[n - 1], after);
      alone := WithoutFlushes(vs[..n], ps[..n - 1], files[..n - 1], level, in0, in1, outs, last);
      OneMoreFile(files);
    }
  }

  lemma OutputsFromInputs(c: Compaction, in0: seq<File>, in1: seq<File>, input: seq<Entry>, snap: nat, outs: seq<File>)
    requires Elements(input) == Contents(in0) + Contents(in1)
    requires SortedLevel(outs) && Contents(outs) == Elements(Kept(c, input, snap, |input|))
    ensures GoodOutputs(in0, in1, outs)
  {
    hide SortedLevel;
    forall e | e in Contents(outs) ensures e in Contents(in0) + Contents(in1) {
      KeptMember(c, input, snap, |input|, e);
      assert e in Elements(input);
    }
  }

  // ----- however the outputs are cut -----

  function EntriesOf(outs: seq<File>): seq<seq<Entry>> {
    seq(|outs|, i requires 0 <= i < |outs| => outs[i].entries)
  }

  /** The files hold these entries, in this order. */
  ghost predicate Cut(kept: seq<Entry>, outs: seq<File>) {
    Flatten(EntriesOf(outs)) == kept && forall o :: o in outs ==> GoodFile(o)
  }

  lemma {:induction false} CutIsSorted(kept: seq<Entry>, outs: seq<File>)
    requires Sorted(kept) && Cut(kept, outs)
    ensures SortedLevel(outs) && Contents(outs) == Elements(kept)
    decreases |outs|
  {
    if outs != [] {
      var n := |outs| - 1;
      var rest, last := outs[..n], outs[n];
      var front := CutLast(kept, outs);
      CutIsSorted(front, rest);
      hide Cut;
      OneMoreFile(outs);
      assert Elements(kept) == Elements(front) + Elements(last.entries);
      forall f | f in rest ensures Less(f.largest, last.smallest) {
        EndsBeforeLast(front, rest, f, last);
      }
      LevelGrows(rest, last);
      assert outs == rest + [last];
    }
  }

  lemma CutLast(kept: seq<Entry>, outs: seq<File>) returns (front: seq<Entry>)
    requires Sorted(kept) && Cut(kept, outs) && outs != []
    ensures
      var n := |outs| - 1;
      && kept == front + outs[n].entries && Cut(front, outs[..n]) && Sorted(front)
      && GoodFile(outs[n]) && forall f :: f in outs[..n] ==> GoodFile(f)
  {
    var n := |outs| - 1;
    assert EntriesOf(outs)[..n] == EntriesOf(outs[..n]);
    front := Flatten(EntriesOf(outs[..n]));
    assert front == kept[..|front|];
    assert outs[n] in outs && forall f :: f in outs[..n] ==> f in outs;
  }

  lemma EndsBeforeLast(front: seq<Entry>, rest: seq<File>, f: File, last: File)
    requires Contents(rest) == Elements(front) && Sorted(front + last.entries) && f in rest && GoodFile(f) && GoodFile(last)
    ensures Less(f.largest, last.smallest)
  {
    var kept, z := front + last.entries, f.entries[|f.entries| - 1];
    assert z in Elements(front) by { assert z in f.entries && z in Contents(rest); }
    var k :| 0 <= k < |front| && front[k] == z;
    assert kept[k] == z && kept[|front|] == last.entries[0];
    assert Less(kept[k].key, kept[|front|].key);
  }

  lemma LevelGrows(rest: seq<File>, last: File)
    requires SortedLevel(rest) && GoodFile(last) && forall f :: f in rest ==> Less(f.largest, last.smallest)
    ensures SortedLevel(rest + [last])
  {
  }

  /** All entries before the file, or all after it. */
  ghost predicate OneSided(kept: seq<Entry>, file: File) {
    || (forall e :: e in kept ==> Less(e.key, file.smallest))
    || forall e :: e in kept ==> Less(file.largest, e.key)
  }

  ghost predicate AllOneSided(level: nat, kept: seq<Entry>, ps: seq<nat>, files: seq<File>)
    requires |ps| == |files|
  {
    forall i :: 0 <= i < |files| ==> ps[i] == level + 1 ==> OneSided(kept, files[i])
  }

  lemma OneSidedApart(kept: seq<Entry>, outs: seq<File>, file: File)
    requires Sorted(kept) && Cut(kept, outs) && OneSided(kept, file)
    ensures ApartFromAll(outs, file)
  {
    CutIsSorted(kept, outs);
    forall o | o in outs ensures Separate(o, file) {
      var a, z := o.entries[0], o.entries[|o.entries| - 1];
      assert a in o.entries && z in o.entries;
      assert a in Contents(outs) && z in Contents(outs);
      assert a in kept && z in kept by { assert a in Elements(kept) && z in Elements(kept); }
    }
  }

  /** All entries in one file. */
  function Whole(number: nat, kept: seq<Entry>): seq<File> {
    if kept == [] then [] else [Table(number, kept)]
  }

  lemma WholeIsCut(number: nat, kept: seq<Entry>)
    requires Sorted(kept)
    ensures Cut(kept, Whole(number, kept))
  {
    if kept != [] {
      var outs := Whole(number, kept);
      assert EntriesOf(outs)[..0] == [];
      assert Flatten(EntriesOf(outs)) == Flatten([]) + kept;
    }
  }

  lemma WholeReachesAcross(number: nat, kept: seq<Entry>, file: File)
    requires Sorted(kept) && ApartFromAll(Whole(number, kept), file)
    ensures OneSided(kept, file)
  {
    if kept != [] {
      var o := Table(number, kept);
      assert o in Whole(number, kept);
      forall e | e in kept ensures !Less(e.key, o.smallest) && !Less(o.largest, e.key) {
        var i :| 0 <= i < |kept| && kept[i] == e;
        assert (0 < i ==> Less(kept[0].key, kept[i].key)) && (i < |kept| - 1 ==> Less(kept[i].key, kept[|kept| - 1].key));
      }
    }
  }

  lemma WholeReachesEverywhere(level: nat, kept: seq<Entry>, number: nat, ps: seq<nat>, files: seq<File>)
    requires Sorted(kept) && |ps| == |files| && NoneAcross(level, Whole(number, kept), ps, files)
    ensures AllOneSided(level, kept, ps, files)
  {
    hide ApartFromAll, Whole, OneSided;
    forall i | 0 <= i < |files| && ps[i] == level + 1 ensures OneSided(kept, files[i]) {
      WholeReachesAcross(number, kept, files[i]);
    }
  }

  // ----- a version for every set of files -----

  /** No two of the files have the same place in the order. */
  ghost predicate Placed(fs: set<File>) {
    forall f, g :: f in fs && g in fs && f != g ==> Manifest.Before(f, g) || Manifest.Before(g, f)
  }

  function Inserted(fs: seq<File>, f: File): seq<File> {
    if fs == [] || Manifest.Before(f, fs[0]) then [f] + fs else [fs[0]] + Inserted(fs[1..], f)
  }

  lemma {:induction false} InsertedOrdered(fs: seq<File>, f: File)
    requires Manifest.Ordered(fs) && forall g :: g in fs ==> Manifest.Before(f, g) || Manifest.Before(g, f)
    ensures Manifest.Ordered(Inserted(fs, f)) && Manifest.Files(Inserted(fs, f)) == Manifest.Files(fs) + {f}
  {
    if fs != [] && !Manifest.Before(f, fs[0]) {
      var rest := Inserted(fs[1..], f);
      Manifest.TailFiles(fs);
      InsertedOrdered(fs[1..], f);
      forall g | g in rest ensures Manifest.Before(fs[0], g) {
        assert g in Manifest.Files(rest) && (g in fs[1..] || g == f);
      }
      assert Manifest.Files([fs[0]] + rest) == {fs[0]} + Manifest.Files(rest);
      assert fs[0] in Manifest.Files(fs);
    } else {
      forall i | 0 <= i < |fs| ensures Manifest.Before(f, fs[i]) {
        if i > 0 {
          assert Manifest.Before(fs[0], fs[i]);
          Manifest.BeforeIsTransitive(f, fs[0], fs[i]);
        }
      }
      assert Manifest.Files([f] + fs) == {f} + Manifest.Files(fs);
    }
  }

  lemma {:induction false} Arranged(fs: set<File>) returns (out: seq<File>)
    requires Placed(fs)
    ensures Manifest.Ordered(out) && Manifest.Files(out) == fs
  {
    if fs == {} {
      out := [];
    } else {
      var f :| f in fs;
      var rest := Arranged(fs - {f});
      forall g | g in rest ensures Manifest.Before(f, g) || Manifest.Before(g, f) {
        assert g in Manifest.Files(rest);
      }
      InsertedOrdered(rest, f);
      out := Inserted(rest, f);
    }
  }

  lemma {:induction false} AllArranged(levels: seq<seq<File>>, level: nat, in0: seq<File>, in1: seq<File>, outs: seq<File>, n: nat)
    returns (after: seq<seq<File>>)
    requires n <= |levels| && forall l :: 0 <= l < |levels| ==> Placed(FilesAfter(levels, level, in0, in1, outs, l))
    ensures |after| == n && forall l :: 0 <= l < n ==>
              Manifest.Ordered(after[l]) && Manifest.Files(after[l]) == FilesAfter(levels, level, in0, in1, outs, l)
    decreases n
  {
    hide Manifest.Ordered, FilesAfter, Placed;
    if n == 0 {
      after := [];
    } else {
      var front := AllArranged(levels, level, in0, in1, outs, n - 1);
      var last := Arranged(FilesAfter(levels, level, in0, in1, outs, n - 1));
      after := front + [last];
    }
  }

  function Above(fs: seq<File>): nat {
    if fs == [] then 1 else if Above(fs[1..]) > fs[0].number then Above(fs[1..]) else fs[0].number + 1
  }

  lemma {:induction false} AboveAll(fs: seq<File>)
    ensures forall f :: f in fs ==> f.number < Above(fs)
  {
    if fs != [] {
      AboveAll(fs[1..]);
      assert fs == [fs[0]] + fs[1..];
    }
  }

  lemma LevelIsPlaced(levels: seq<seq<File>>, l: nat)
    requires WellFormed(levels) && l < |levels|
    ensures Placed(Manifest.Files(levels[l]))
  {
    hide WellFormed, GoodFile, NewerThan;
    if l > 0 {
      LevelIsSorted(levels, l);
      SortedIsSeparate(levels[l]);
      forall f, g | f in levels[l] && g in levels[l] && f != g ensures Manifest.Before(f, g) || Manifest.Before(g, f) {
        assert f in Manifest.Files(levels[l]) && g in Manifest.Files(levels[l]);
        GoodFileSpans(f);
        GoodFileSpans(g);
      }
    } else {
      forall f, g | f in levels[0] && g in levels[0] && f != g ensures Manifest.Before(f, g) || Manifest.Before(g, f) {
        LevelZeroAged(levels);
        OldNumbersDiffer(levels[0], f, g);
        Manifest.BeforeIsTotal(f, g);
      }
    }
  }

  lemma LevelZeroAged(levels: seq<seq<File>>)
    requires WellFormed(levels)
    ensures AgedByNumber(levels[0])
  {
  }

  /** The version there is when the compaction writes a single file. */
  lemma WholeInstalled(levels: seq<seq<File>>, level: nat, in0: seq<File>, in1: seq<File>, kept: seq<Entry>)
    returns (outs: seq<File>, number: nat, after: seq<seq<File>>)
    requires WellFormed(levels) && InputsIn(levels, level, in0, in1)
    ensures outs == Whole(number, kept) && Installed(levels, level, in0, in1, outs, after)
  {
    hide WellFormed, Manifest.Ordered, Placed;
    number := Above(levels[level + 1]);
    outs := Whole(number, kept);
    AboveAll(levels[level + 1]);
    forall l | 0 <= l < |levels| ensures Placed(FilesAfter(levels, level, in0, in1, outs, l)) {
      LevelIsPlaced(levels, l);
      WholeIsPlaced(levels, level, in0, in1, number, kept, l);
    }
    after := AllArranged(levels, level, in0, in1, outs, |levels|);
  }

  lemma WholeIsPlaced(levels: seq<seq<File>>, level: nat, in0: seq<File>, in1: seq<File>, number: nat, kept: seq<Entry>, l: nat)
    requires l < |levels| && Placed(Manifest.Files(levels[l]))
    requires l == level + 1 ==> forall f :: f in levels[l] ==> f.number < number
    ensures Placed(FilesAfter(levels, level, in0, in1, Whole(number, kept), l))
  {
    var fs := FilesAfter(levels, level, in0, in1, Whole(number, kept), l);
    forall f, g | f in fs && g in fs && f != g ensures Manifest.Before(f, g) || Manifest.Before(g, f) {
      Manifest.BeforeIsTotal(f, g);
      assert f in levels[l] || f.number == number;
      assert g in levels[l] || g.number == number;
      if f in levels[l] && g in levels[l] {
        assert f in Manifest.Files(levels[l]) && g in Manifest.Files(levels[l]);
      }
    }
  }

  /** Some version comes of the compaction, however it cuts its outputs. */
  ghost predicate AnyCutIsWell(levels: seq<seq<File>>, level: nat, in0: seq<File>, in1: seq<File>, kept: seq<Entry>) {
    forall outs, after :: Cut(kept, outs) && Installed(levels, level, in0, in1, outs, after) ==> WellFormed(after)
  }

  /** What can be told when the flushes pick their levels: however the compaction will cut the
      entries it keeps into files, the version is well formed, exactly if at each table flushed
      to the compaction's lower level all those entries lie to one side of it. */
  lemma EveryCut(c: Compaction, vs: seq<seq<seq<File>>>, ps: seq<nat>, files: seq<File>,
                 level: nat, in0: seq<File>, in1: seq<File>, input: seq<Entry>, snap: nat)
    requires Flushes(vs, ps, files) && WellFormed(vs[0]) && DistinctSeqs(AllEntries(vs[0])) && Selection(vs[0], level, in0, in1)
    requires Sorted(input) && Elements(input) == Contents(in0) + Contents(in1)
    ensures AnyCutIsWell(Current(vs), level, in0, in1, Kept(c, input, snap, |input|))
            <==> AllOneSided(level, Kept(c, input, snap, |input|), ps, files)
  {
    hide WellFormed, Selection, Installed, Flushes, SortedLevel, Sorted, DistinctSeqs, GoodOutputs, Cut, NoneAcross, AllOneSided;
    FlushesShape(vs, ps, files);
    var kept := Kept(c, input, snap, |input|);
    KeptSorted(c, input, snap, |input|);
    InputsKnown(vs[0], level, in0, in1);
    FlushesKeep(vs, ps, files, level, in0, in1);
    forall outs, after | Cut(kept, outs) && Installed(Current(vs), level, in0, in1, outs, after)
      ensures WellFormed(after) <==> NoneAcross(level, outs, ps, files)
      ensures AllOneSided(level, kept, ps, files) ==> WellFormed(after)
    {
      CutIsSorted(kept, outs);
      OutputsFromInputs(c, in0, in1, input, snap, outs);
      FlushesDuringCompaction(vs, ps, files, level, in0, in1, outs, after);
      if AllOneSided(level, kept, ps, files) {
        OneSidedNoneAcross(level, kept, outs, ps, files);
      }
    }
    var outs, number, after := WholeInstalled(Current(vs), level, in0, in1, kept);
    WholeIsCut(number, kept);
    if NoneAcross(level, outs, ps, files) {
      WholeReachesEverywhere(level, kept, number, ps, files);
    }
  }

  lemma OneSidedNoneAcross(level: nat, kept: seq<Entry>, outs: seq<File>, ps: seq<nat>, files: seq<File>)
    requires Sorted(kept) && Cut(kept, outs) && |ps| == |files| && AllOneSided(level, kept, ps, files)
    ensures NoneAcross(level, outs, ps, files)
  {
    hide Cut, OneSided, ApartFromAll;
    forall i | 0 <= i < |files| && ps[i] == level + 1 ensures ApartFromAll(outs, files[i]) {
      OneSidedApart(kept, outs, files[i]);
    }
  }

  // ----- the condition is needed -----

  const LOW := Entry(InternalKey(1.0, 1, Put), "low")
  const HIGH := Entry(InternalKey(9.0, 2, Put), "high")
  const BETWEEN := Entry(InternalKey(5.0, 3, Put), "between")
  const FIRST := Table(1, [LOW])
  const SECOND := Table(2, [HIGH])
  const OUTPUT := Table(3, [LOW, HIGH])
  const FLUSHED := Table(4, [BETWEEN])

  /** Two upper files with a gap between them, and nothing else. */
  function GapLevels(): seq<seq<File>> {
    [[], [FIRST, SECOND], [], [], [], [], []]
  }

  lemma GapFiles(l: nat, f: File)
    ensures l < |GapLevels()| && f in GapLevels()[l] <==> l == 1 && (f == FIRST || f == SECOND)
    ensures FIRST.entries == [LOW] && SECOND.entries == [HIGH] && FLUSHED.entries == [BETWEEN] && OUTPUT.entries == [LOW, HIGH]
  {
  }

  lemma GapTables()
    ensures GoodFile(FIRST) && GoodFile(SECOND) && GoodFile(OUTPUT) && GoodFile(FLUSHED)
    ensures SortedLevel([FIRST, SECOND]) && SortedLevel([OUTPUT]) && SortedLevel([])
    ensures !Separate(OUTPUT, FLUSHED)
  {
  }

  lemma GapIsWellFormed()
    ensures WellFormed(GapLevels())
  {
    hide GoodFile, SortedLevel, Table, GapLevels;
    GapTables();
    var levels := GapLevels();
    GapShape();
    forall l: nat, f | l < |levels| && f in levels[l] ensures l == 1 {
      GapFiles(l, f);
    }
    assert AgedByNumber(levels[0]);
  }

  lemma GapShape()
    ensures |GapLevels()| == LEVELS && forall l :: 0 <= l < LEVELS ==> GapLevels()[l] == if l == 1 then [FIRST, SECOND] else []
  {
  }

  /** A compaction of both upper files, as a manual one picks them; it writes one file. */
  lemma GapSelection()
    ensures Selection(GapLevels(), 1, [FIRST, SECOND], []) && BoundaryClosed([], [])
    ensures GoodOutputs([FIRST, SECOND], [], [OUTPUT])
  {
    hide GoodFile, SortedLevel, Table;
    GapTables();
    GapFiles(0, FIRST);
    var upper := [FIRST, SECOND];
    assert GapLevels()[1] == upper && GapLevels()[2] == [];
    assert upper == upper[0..2];
    RunLargest(upper, 0, 2);
    GapBoundary();
    forall smallest, largest ensures Overlapping([], At(smallest), At(largest)) == [] {
    }
    forall e | e in Contents([OUTPUT]) ensures e in Contents(upper) + Contents([]) {
      assert e == LOW || e == HIGH;
      assert upper[0] == FIRST && upper[1] == SECOND;
      assert FIRST in upper && SECOND in upper && LOW in FIRST.entries && HIGH in SECOND.entries;
    }
  }

  lemma GapBoundary()
    ensures BoundaryClosed([FIRST, SECOND], [FIRST, SECOND])
  {
    var upper := [FIRST, SECOND];
    forall key, f | IsLargest(upper, key) && f in upper ensures !Boundary(f, key) {
      assert upper[1] == SECOND && SECOND in upper;
      assert !Less(key, SECOND.largest);
    }
  }

  /** The table of a memtable in the gap is given level 2, where the compaction writes. */
  lemma GapIsPicked()
    ensures NewestFile(GapLevels(), FLUSHED)
    ensures forall l :: 0 <= l <= 2 ==> !SomeOverlap(GapLevels()[l], At(FLUSHED.smallest.user), At(FLUSHED.largest.user))
  {
    hide GoodFile, SortedLevel;
    GapTables();
    GapFiles(0, FIRST);
    forall l: nat, f | l < |GapLevels()| && f in GapLevels()[l]
      ensures l == 1 && NewerThan(FLUSHED.entries, f.entries) && !Overlaps(f, At(FLUSHED.smallest.user), At(FLUSHED.largest.user))
    {
      GapFiles(l, f);
    }
  }

  lemma GapSequenced(l: nat)
    requires l < LEVELS
    ensures Sequenced(GapLevels()[l])
  {
    forall f | f in GapLevels()[l] ensures f.largest.sequence <= MAX_SEQUENCE {
      GapFiles(l, f);
    }
  }

  lemma NothingBelow(l: nat, lo: Bound, hi: Bound)
    requires 2 <= l < LEVELS
    ensures GapLevels()[l] == [] && TotalFileSize(Overlapping([], lo, hi)) == 0
  {
  }

  /** The program's own level test puts the flushed table at level 2. */
  method GapLevelPicked(maxOverlap: nat) returns (level: nat)
    ensures level == 2
  {
    hide WellFormed, SortedLevel, Sequenced, Overlapping, TotalFileSize, SomeOverlap, GapLevels, Table;
    GapFiles(0, FIRST);
    GapIsWellFormed();
    GapIsPicked();
    assert |GapLevels()| == LEVELS by { GapShape(); }
    forall l | 0 < l < LEVELS ensures SortedLevel(GapLevels()[l]) && Sequenced(GapLevels()[l]) {
      LevelIsSorted(GapLevels(), l);
      GapSequenced(l);
    }
    NothingBelow(2, At(5.0), At(5.0));
    NothingBelow(3, At(5.0), At(5.0));
    level := PickLevelForMemTableOutput(GapLevels(), FLUSHED.smallest.user, FLUSHED.largest.user, maxOverlap);
  }

  function GapFlushed(): seq<seq<File>> {
    [[], [FIRST, SECOND], [FLUSHED], [], [], [], []]
  }

  function GapAfter(): seq<seq<File>> {
    [[], [], [OUTPUT, FLUSHED], [], [], [], []]
  }

  /** The compaction of the gap keeps both entries, and they are not on one side. */
  lemma GapKept(c: Compaction, snap: nat)
    requires c.files == GapLevels() && c.level == 1
    ensures Kept(c, [LOW, HIGH], snap, 2) == [LOW, HIGH] && !OneSided([LOW, HIGH], FLUSHED)
  {
    assert Survives(c, [LOW, HIGH], snap, 0) && Survives(c, [LOW, HIGH], snap, 1);
    assert Kept(c, [LOW, HIGH], snap, 0) == [];
    assert Kept(c, [LOW, HIGH], snap, 1) == [LOW];
    assert LOW in [LOW, HIGH] && HIGH in [LOW, HIGH];
    assert [LOW, HIGH][0] == LOW && [LOW, HIGH][1] == HIGH;
  }

  lemma OneFileOrNone(f: File)
    ensures Manifest.Ordered([]) && Manifest.Ordered([f]) && Manifest.Files([]) == {} && Manifest.Files([f]) == {f}
  {
  }

  lemma GapArranged()
    ensures Manifest.Ordered([FIRST, SECOND]) && Manifest.Files([FIRST, SECOND]) == {FIRST, SECOND}
    ensures Manifest.Ordered([OUTPUT, FLUSHED]) && Manifest.Files([OUTPUT, FLUSHED]) == {OUTPUT, FLUSHED}
  {
    assert [FIRST, SECOND][0] == FIRST && [FIRST, SECOND][1] == SECOND;
    assert [OUTPUT, FLUSHED][0] == OUTPUT && [OUTPUT, FLUSHED][1] == FLUSHED;
  }

  lemma GapFlushHappens()
    ensures Flushed(GapLevels(), 2, FLUSHED, GapFlushed())
  {
    hide Table, Manifest.Ordered, Manifest.Files, SomeOverlap, NewestFile;
    GapIsPicked();
    GapArranged();
    OneFileOrNone(FLUSHED);
  }

  lemma GapInstalled()
    ensures Installed(GapFlushed(), 1, [FIRST, SECOND], [], [OUTPUT], GapAfter())
  {
    hide Table, Manifest.Ordered, Manifest.Files;
    GapArranged();
    OneFileOrNone(FLUSHED);
    OneFileOrNone(OUTPUT);
  }

  /** The flush into the gap, and a version the compaction then makes with its one output. */
  lemma GapHappens()
    ensures Flushes([GapLevels(), GapFlushed()], [2], [FLUSHED])
    ensures Installed(GapFlushed(), 1, [FIRST, SECOND], [], [OUTPUT], GapAfter())
    ensures Cut([LOW, HIGH], [OUTPUT])
  {
    hide Table, Flushed, Installed, GapLevels, GapFlushed, GapAfter;
    GapFlushHappens();
    GapInstalled();
    GapTables();
    GapFiles(0, FIRST);
    var vs := [GapLevels(), GapFlushed()];
    assert vs[..1] == [GapLevels()];
    assert Flushes(vs[..1], [], []);
    var outs := EntriesOf([OUTPUT]);
    assert outs[..0] == [] && outs[0] == [LOW, HIGH];
    assert Flatten(outs) == Flatten([]) + [LOW, HIGH];
  }

  /** Whatever version comes of it, level 2 is out of order, and the search for the flushed key
      stops at a file that does not hold it. */
  lemma FlushedTableIsLost(flushed: seq<seq<File>>, after: seq<seq<File>>)
    requires Flushes([GapLevels(), flushed], [2], [FLUSHED]) && Installed(flushed, 1, [FIRST, SECOND], [], [OUTPUT], after)
    ensures after[2] == [OUTPUT, FLUSHED] && !SortedLevel(after[2])
    ensures !Less(OUTPUT.largest, SeekKey(5.0, 3)) && NoneVisible(OUTPUT.entries, 5.0, 3)
    ensures BETWEEN in AllEntries(after) && Visible(BETWEEN, 5.0, 3)
  {
    GapTables();
    GapFiles(0, FIRST);
    var files := [OUTPUT, FLUSHED];
    assert Flushed(GapLevels(), 2, FLUSHED, flushed);
    assert Manifest.Files(flushed[2]) == {FLUSHED};
    assert Manifest.Files(after[2]) == {OUTPUT, FLUSHED};
    assert Manifest.Files(files) == {OUTPUT, FLUSHED} by {
      assert files[0] == OUTPUT && files[1] == FLUSHED;
    }
    Manifest.OrderedIsUnique(after[2], files);
    assert after[2][1] == FLUSHED && BETWEEN in FLUSHED.entries;
  }
}
