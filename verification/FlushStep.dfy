/** A memtable's table enters a version: the level it is given, and what that keeps. */
module FlushStep {
  import opened Store
  import opened VersionGet
  import opened CompactionWork
  import opened CompactionReads
  import opened InputSelection
  import opened SelectionReads
  import opened VersionStep
  import Manifest

  const MAX_MEM_COMPACT_LEVEL: nat := 2

  // ----- picking a level -----

  /** Sequence numbers fit their 56 bits. */
  ghost predicate Sequenced(files: seq<File>) {
    forall f :: f in files ==> f.largest.sequence <= MAX_SEQUENCE
  }

  ghost predicate SomeOverlap(files: seq<File>, lo: Bound, hi: Bound) {
    exists f :: f in files && Overlaps(f, lo, hi)
  }

  /** Exact, whether every file is looked at or the first candidate is found by binary search. */
  method SomeFileOverlapsRange(disjointSorted: bool, files: seq<File>, lo: Bound, hi: Bound) returns (r: bool)
    requires disjointSorted ==> SortedLevel(files) && Sequenced(files)
    ensures r <==> SomeOverlap(files, lo, hi)
  {
    if !disjointSorted {
      for i := 0 to |files|
        invariant forall k :: 0 <= k < i ==> !Overlaps(files[k], lo, hi)
      {
        if Overlaps(files[i], lo, hi) {
          return true;
        }
      }
      return false;
    }
    var index := 0;
    if lo.At? {
      index := FindFile(files, InternalKey(lo.user, MAX_SEQUENCE, Put));
    }
    forall k | 0 <= k < index ensures EndsBefore(files[k], lo) {
      assert files[k] in files && Less(files[k].largest, InternalKey(lo.user, MAX_SEQUENCE, Put));
    }
    if index >= |files| {
      return false;
    }
    assert !EndsBefore(files[index], lo);
    forall k | index <= k < |files| && StartsAfter(files[index], hi) ensures StartsAfter(files[k], hi) {
      LevelOrder(files, index, k);
    }
    r := !StartsAfter(files[index], hi);
    assert r ==> Overlaps(files[index], lo, hi);
  }

  /** A memtable's table goes below level 0 only past levels it does not overlap, and no
      further than its share of the level after that allows. */
  method PickLevelForMemTableOutput(levels: seq<seq<File>>, smallest: UserKey, largest: UserKey, maxOverlap: nat) returns (level: nat)
    requires |levels| == LEVELS && forall l :: 0 < l < LEVELS ==> SortedLevel(levels[l]) && Sequenced(levels[l])
    ensures level <= MAX_MEM_COMPACT_LEVEL
    ensures level > 0 ==> forall l :: 0 <= l <= level ==> !SomeOverlap(levels[l], At(smallest), At(largest))
    ensures forall l :: 2 <= l < level + 2 ==> TotalFileSize(Overlapping(levels[l], At(smallest), At(largest))) <= maxOverlap
    ensures level < MAX_MEM_COMPACT_LEVEL ==>
              || (level == 0 && SomeOverlap(levels[0], At(smallest), At(largest)))
              || SomeOverlap(levels[level + 1], At(smallest), At(largest))
              || TotalFileSize(Overlapping(levels[level + 2], At(smallest), At(largest))) > maxOverlap
  {
    hide SortedLevel, Sequenced, Overlapping, TotalFileSize, SomeOverlap;
    level := 0;
    var lo, hi := At(smallest), At(largest);
    var overlap := SomeFileOverlapsRange(false, levels[0], lo, hi);
    if !overlap {
      while level < MAX_MEM_COMPACT_LEVEL
        invariant level <= MAX_MEM_COMPACT_LEVEL
        invariant forall l :: 0 <= l <= level ==> !SomeOverlap(levels[l], lo, hi)
        invariant forall l :: 2 <= l < level + 2 ==> TotalFileSize(Overlapping(levels[l], lo, hi)) <= maxOverlap
      {
        overlap := SomeFileOverlapsRange(true, levels[level + 1], lo, hi);
        if overlap {
          break;
        }
        if level + 2 < LEVELS {
          var overlaps, _, _ := GetOverlappingInputs(level + 2, levels[level + 2], lo, hi);
          if TotalFileSize(overlaps) > maxOverlap {
            break;
          }
        }
        level := level + 1;
      }
    }
  }

  // ----- a new file in a version -----

  ghost predicate SharesNoKey(f: File, g: File) {
    forall e, d :: e in f.entries && d in g.entries ==> e.key.user != d.key.user
  }

  lemma ApartByRange(f: File, g: File)
    requires GoodFile(f) && GoodFile(g) && !Overlaps(f, At(g.smallest.user), At(g.largest.user))
    ensures Separate(f, g) && SharesNoKey(f, g)
  {
    GoodFileSpans(f);
    GoodFileSpans(g);
    forall e, d | e in f.entries && d in g.entries ensures e.key.user != d.key.user {
      InFile(f, e);
      InFile(g, d);
    }
  }

  /** The file is newer than everything in the version, by entries and by number. */
  ghost predicate NewestFile(levels: seq<seq<File>>, file: File) {
    && GoodFile(file)
    && (forall l, f :: 0 <= l < |levels| && f in levels[l] ==> NewerThan(file.entries, f.entries))
    && forall f :: 0 < |levels| && f in levels[0] ==> f.number < file.number
  }

  /** `after` is `levels` with the file added at level `p`. */
  ghost predicate Entered(levels: seq<seq<File>>, p: nat, file: File, after: seq<seq<File>>) {
    && |after| == |levels| && p < |levels|
    && forall l :: 0 <= l < |levels| ==>
         Manifest.Ordered(after[l]) && Manifest.Files(after[l]) == Manifest.Files(levels[l]) + if l == p then {file} else {}
  }

  ghost predicate Fits(levels: seq<seq<File>>, p: nat, file: File)
    requires p < |levels|
  {
    p > 0 ==>
      && (forall g :: g in levels[p] ==> Separate(g, file))
      && forall l, f :: 0 <= l < p && f in levels[l] ==> SharesNoKey(f, file)
  }

  /** A newest file keeps a version well formed exactly if it is apart from its level and
      shares no user key with the levels above. */
  lemma EnterKeepsWellFormed(levels: seq<seq<File>>, p: nat, file: File, after: seq<seq<File>>)
    requires WellFormed(levels) && NewestFile(levels, file) && Entered(levels, p, file, after)
    ensures WellFormed(after) <==> Fits(levels, p, file)
  {
    hide SortedLevel, NewerThan, Separate, SharesNoKey, AgedByNumber;
    if Fits(levels, p, file) {
      EnterWell(levels, p, file, after);
    }
    if WellFormed(after) && p > 0 {
      EnteredIn(levels, p, file, after);
      forall g | g in levels[p] ensures Separate(g, file) {
        SortedIsSeparate(after[p]);
        NotItself(levels, p, file, g);
        assert g in Manifest.Files(after[p]) && file in Manifest.Files(after[p]);
      }
      forall l, f | 0 <= l < p && f in levels[l] ensures SharesNoKey(f, file) {
        assert f in Manifest.Files(levels[l]);
        assert f in Manifest.Files(after[l]);
        assert NewerThan(f.entries, file.entries) && NewerThan(file.entries, f.entries);
        EachNewer(f, file);
      }
    }
  }

  lemma EnteredIn(levels: seq<seq<File>>, p: nat, file: File, after: seq<seq<File>>)
    requires Entered(levels, p, file, after)
    ensures file in after[p] && forall g :: g in levels[p] ==> g in after[p]
  {
    assert file in Manifest.Files(after[p]);
    forall g | g in levels[p] ensures g in after[p] {
      assert g in Manifest.Files(after[p]);
    }
  }

  lemma NotItself(levels: seq<seq<File>>, p: nat, file: File, g: File)
    requires NewestFile(levels, file) && p < |levels| && g in levels[p]
    ensures g != file
  {
    assert NewerThan(file.entries, g.entries);
    assert file.entries[0] in file.entries;
  }

  lemma EachNewer(f: File, g: File)
    requires NewerThan(f.entries, g.entries) && NewerThan(g.entries, f.entries)
    ensures SharesNoKey(f, g)
  {
  }

  lemma NoKeyNewer(f: File, g: File)
    requires SharesNoKey(f, g)
    ensures NewerThan(f.entries, g.entries)
  {
  }

  lemma EnterWell(levels: seq<seq<File>>, p: nat, file: File, after: seq<seq<File>>)
    requires WellFormed(levels) && NewestFile(levels, file) && Entered(levels, p, file, after) && Fits(levels, p, file)
    ensures WellFormed(after)
  {
    hide SortedLevel, NewerThan, Separate, SharesNoKey, AgedByNumber;
    forall l | 0 < l < |after| ensures SortedLevel(after[l]) {
      EnterSorted(levels, p, file, after, l);
    }
    EnterAged(levels, p, file, after);
    forall l, l', f: File, g: File | 0 <= l < l' < |after| && f in after[l] && g in after[l'] ensures NewerThan(f.entries, g.entries) {
      assert f in Manifest.Files(after[l]) && g in Manifest.Files(after[l']);
      assert f in levels[l] || (l == p && f == file);
      assert g in levels[l'] || (l' == p && g == file);
      if f in levels[l] && g !in levels[l'] {
        NoKeyNewer(f, file);
      }
    }
  }

  lemma EnterSorted(levels: seq<seq<File>>, p: nat, file: File, after: seq<seq<File>>, l: nat)
    requires WellFormed(levels) && NewestFile(levels, file) && Entered(levels, p, file, after) && Fits(levels, p, file)
    requires 0 < l < |after|
    ensures SortedLevel(after[l])
  {
    hide SortedLevel, NewerThan, SharesNoKey, AgedByNumber, WellFormed;
    LevelIsSorted(levels, l);
    SortedIsSeparate(levels[l]);
    SeparateIsSorted(after[l]);
  }

  lemma EnterAged(levels: seq<seq<File>>, p: nat, file: File, after: seq<seq<File>>)
    requires WellFormed(levels) && NewestFile(levels, file) && Entered(levels, p, file, after)
    ensures AgedByNumber(after[0])
  {
    hide SortedLevel, NewerThan, GoodFile;
    forall f | f in after[0] ensures f in levels[0] || (p == 0 && f == file) {
      assert f in Manifest.Files(after[0]);
    }
    forall i, j | 0 <= i < j < |after[0]| ensures after[0][i].number != after[0][j].number {
      var f, g := after[0][i], after[0][j];
      assert Manifest.Before(f, g);
      Manifest.BeforeIsTotal(f, g);
      assert f in after[0] && g in after[0];
      if f in levels[0] && g in levels[0] {
        OldNumbersDiffer(levels[0], f, g);
      }
    }
  }

  lemma OldNumbersDiffer(files: seq<File>, f: File, g: File)
    requires AgedByNumber(files) && f != g && f in files && g in files
    ensures f.number != g.number
  {
    var m :| 0 <= m < |files| && files[m] == f;
    var n :| 0 <= n < |files| && files[n] == g;
  }

  // ----- a memtable's table -----

  /** The level picked for a table is one it fits. */
  lemma PickedFits(levels: seq<seq<File>>, p: nat, file: File)
    requires WellFormed(levels) && GoodFile(file) && p < |levels|
    requires p > 0 ==> forall l :: 0 <= l <= p ==> !SomeOverlap(levels[l], At(file.smallest.user), At(file.largest.user))
    ensures Fits(levels, p, file)
    ensures p > 0 ==> forall l, f :: 0 <= l <= p && f in levels[l] ==> SharesNoKey(f, file)
  {
    hide SortedLevel, NewerThan, Separate, SharesNoKey, AgedByNumber, WellFormed;
    if p > 0 {
      forall l, f | 0 <= l <= p && f in levels[l] ensures Separate(f, file) && SharesNoKey(f, file) {
        LevelFilesGood(levels, l);
        assert !Overlaps(f, At(file.smallest.user), At(file.largest.user));
        ApartByRange(f, file);
      }
    }
  }

  lemma EntriesEntered(levels: seq<seq<File>>, p: nat, file: File, after: seq<seq<File>>)
    requires Entered(levels, p, file, after)
    ensures AllEntries(after) == AllEntries(levels) + Elements(file.entries)
  {
    forall e ensures e in AllEntries(after) <==> e in AllEntries(levels) + Elements(file.entries) {
      if e in AllEntries(after) {
        var l, f: File :| 0 <= l < |after| && f in after[l] && e in f.entries;
        assert f in Manifest.Files(after[l]);
        assert f == file || f in levels[l];
      }
      if e in AllEntries(levels) {
        var l, f: File :| 0 <= l < |levels| && f in levels[l] && e in f.entries;
        assert f in Manifest.Files(levels[l]);
        assert f in Manifest.Files(after[l]);
      }
      if e in file.entries {
        assert file in Manifest.Files(after[p]);
      }
    }
  }

  /** A flush between compactions: the next version is well formed, and with the memtable's
      entries in a table every read answers as it did with them in memory. */
  lemma FlushKeepsReads(levels: seq<seq<File>>, p: nat, file: File, after: seq<seq<File>>, mem: set<Entry>)
    requires WellFormed(levels) && NewestFile(levels, file) && Entered(levels, p, file, after)
    requires p > 0 ==> forall l :: 0 <= l <= p ==> !SomeOverlap(levels[l], At(file.smallest.user), At(file.largest.user))
    ensures WellFormed(after)
    ensures forall k, s: nat :: Lookup(mem + AllEntries(after), k, s) == Lookup(mem + Elements(file.entries) + AllEntries(levels), k, s)
  {
    hide WellFormed, SomeOverlap, Lookup, Fits;
    PickedFits(levels, p, file);
    EnterKeepsWellFormed(levels, p, file, after);
    EntriesEntered(levels, p, file, after);
    assert mem + AllEntries(after) == mem + Elements(file.entries) + AllEntries(levels);
  }
}
