/** The sorted streams that the files of a level are read as, and what several of them merge
    into. */
module EntryStreams {
  import opened Store
  import opened VersionGet
  import opened CompactionWork
  import opened InputSelection
  import opened FlushRace
  import Merger

  /** One stream for each level-0 file, one for the files of a deeper level. */
  function InputsOf(level: nat, files: seq<File>): seq<seq<Entry>> {
    if files == [] then [] else if level == 0 then EntriesOf(files) else [Flatten(EntriesOf(files))]
  }

  /** Entries of different files of a database have different keys. */
  lemma NewerIsUnlike(es: seq<Entry>, fs: seq<Entry>)
    requires NewerThan(es, fs) || NewerThan(fs, es)
    ensures Merger.Unlike(es, fs) && Merger.Unlike(fs, es)
  {
  }

  /** Files taken out of a level keep their order. */
  lemma {:induction false} OverlappingPlaces(files: seq<File>, lo: Bound, hi: Bound, i: nat, k: nat) returns (m: nat, n: nat)
    requires i < k < |Overlapping(files, lo, hi)|
    ensures m < n < |files| && files[m] == Overlapping(files, lo, hi)[i] && files[n] == Overlapping(files, lo, hi)[k]
    decreases |files|
  {
    var l := |files| - 1;
    var front := Overlapping(files[..l], lo, hi);
    if k < |front| {
      m, n := OverlappingPlaces(files[..l], lo, hi, i, k);
    } else {
      n := l;
      assert front[i] in front;
      OverlappingMember(files[..l], lo, hi, front[i]);
      m :| 0 <= m < l && files[..l][m] == front[i];
    }
  }

  lemma ClusterUnlike(files: seq<File>, sel: seq<File>, i: nat, k: nat)
    requires AgedByNumber(files) && IsCluster(files, sel) && i < k < |sel|
    ensures Merger.Unlike(sel[i].entries, sel[k].entries)
  {
    var lo, hi :| Closed(files, lo, hi) && sel == Overlapping(files, lo, hi);
    var m, n := OverlappingPlaces(files, lo, hi, i, k);
    NewerIsUnlike(files[m].entries, files[n].entries);
  }

  /** The files of a sorted run, one after the other, are one sorted stream. */
  lemma {:induction false} RunIsSorted(files: seq<File>)
    requires SortedLevel(files)
    ensures Sorted(Flatten(EntriesOf(files))) && Elements(Flatten(EntriesOf(files))) == Contents(files)
    decreases |files|
  {
    if files != [] {
      var n := |files| - 1;
      var front, last := files[..n], files[n];
      assert EntriesOf(files)[..n] == EntriesOf(front);
      assert Flatten(EntriesOf(files)) == Flatten(EntriesOf(front)) + last.entries;
      RunIsSorted(front);
      OneMoreFile(files);
      forall e, f | e in Flatten(EntriesOf(front)) && f in last.entries ensures Less(e.key, f.key) {
        EarlierIsLess(files, e, f);
      }
      JoinedSorted(Flatten(EntriesOf(front)), last.entries);
    } else {
      assert EntriesOf(files) == [];
    }
  }

  lemma EarlierIsLess(files: seq<File>, e: Entry, f: Entry)
    requires SortedLevel(files) && files != []
    requires
      var n := |files| - 1;
      f in files[n].entries && e in Elements(Flatten(EntriesOf(files[..n]))) && Elements(Flatten(EntriesOf(files[..n]))) == Contents(files[..n])
    ensures Less(e.key, f.key)
  {
    var n := |files| - 1;
    var g :| g in files[..n] && e in g.entries;
    var m :| 0 <= m < n && files[..n][m] == g;
    LevelOrder(files, m, n);
    GoodFileSpans(files[m]);
    LevelOrder(files, n, n);
    GoodFileSpans(files[n]);
  }

  lemma JoinedSorted(a: seq<Entry>, b: seq<Entry>)
    requires Sorted(a) && Sorted(b) && forall e, f :: e in a && f in b ==> Less(e.key, f.key)
    ensures Sorted(a + b) && Elements(a + b) == Elements(a) + Elements(b)
  {
  }

  ghost predicate HoldsAll(streams: seq<seq<Entry>>, es: set<Entry>) {
    && (forall i, e :: 0 <= i < |streams| && e in streams[i] ==> e in es)
    && forall e :: e in es ==> exists i :: 0 <= i < |streams| && e in streams[i]
  }

  ghost predicate Streams(streams: seq<seq<Entry>>, es: set<Entry>) {
    && HoldsAll(streams, es)
    && (forall i :: 0 <= i < |streams| ==> Sorted(streams[i]))
    && forall i, k :: 0 <= i < k < |streams| ==> Merger.Unlike(streams[i], streams[k])
  }

  lemma ClusterStreams(files: seq<File>, sel: seq<File>)
    requires AgedByNumber(files) && IsCluster(files, sel)
    ensures Streams(EntriesOf(sel), Contents(sel))
  {
    hide NewerThan, Sorted;
    var lo, hi :| Closed(files, lo, hi) && sel == Overlapping(files, lo, hi);
    var streams := EntriesOf(sel);
    forall i | 0 <= i < |streams| ensures Sorted(streams[i]) {
      assert sel[i] in sel;
      OverlappingMember(files, lo, hi, sel[i]);
      assert GoodFile(sel[i]);
    }
    forall i, k | 0 <= i < k < |streams| ensures Merger.Unlike(streams[i], streams[k]) {
      ClusterUnlike(files, sel, i, k);
    }
    forall e | e in Contents(sel) ensures exists i :: 0 <= i < |streams| && e in streams[i] {
      var f :| f in sel && e in f.entries;
      var i :| 0 <= i < |sel| && sel[i] == f;
      assert e in streams[i];
    }
  }

  lemma RunOfSorted(files: seq<File>, sel: seq<File>)
    requires SortedLevel(files) && IsRun(files, sel)
    ensures SortedLevel(sel)
  {
  }

  lemma RunStreams(files: seq<File>, sel: seq<File>)
    requires SortedLevel(files) && IsRun(files, sel)
    ensures Streams([Flatten(EntriesOf(sel))], Contents(sel))
  {
    hide SortedLevel;
    RunOfSorted(files, sel);
    RunIsSorted(sel);
    var streams := [Flatten(EntriesOf(sel))];
    assert forall e :: e in Contents(sel) ==> e in streams[0];
    assert forall e :: e in streams[0] ==> e in Elements(streams[0]);
  }

  /** The streams of either kind of level. */
  lemma LevelStreams(level: nat, files: seq<File>, sel: seq<File>)
    requires sel == [] || (if level == 0 then AgedByNumber(files) && IsCluster(files, sel) else SortedLevel(files) && IsRun(files, sel))
    ensures Streams(InputsOf(level, sel), Contents(sel))
  {
    hide Streams, AgedByNumber, IsCluster, SortedLevel, IsRun, EntriesOf, Flatten;
    if sel == [] {
      NoStreams();
    } else if level == 0 {
      ClusterStreams(files, sel);
    } else {
      RunStreams(files, sel);
    }
  }

  lemma NoStreams()
    ensures Streams([], Contents([]))
  {
  }

  lemma StreamsTogether(a: seq<seq<Entry>>, es: set<Entry>, b: seq<seq<Entry>>, fs: set<Entry>)
    requires Streams(a, es) && Streams(b, fs)
    requires forall e, f :: e in es && f in fs && e.key.user == f.key.user ==> e.key.sequence > f.key.sequence
    ensures Streams(a + b, es + fs)
  {
    hide HoldsAll, Sorted, Merger.Unlike;
    var streams := a + b;
    BothHold(a, es, b, fs);
    forall i, k | 0 <= i < k < |streams| ensures Merger.Unlike(streams[i], streams[k]) {
      if i < |a| <= k {
        AcrossUnlike(a, es, b, fs, i, k - |a|);
      }
    }
  }

  lemma AcrossUnlike(a: seq<seq<Entry>>, es: set<Entry>, b: seq<seq<Entry>>, fs: set<Entry>, i: nat, k: nat)
    requires HoldsAll(a, es) && HoldsAll(b, fs) && i < |a| && k < |b|
    requires forall e, f :: e in es && f in fs && e.key.user == f.key.user ==> e.key.sequence > f.key.sequence
    ensures Merger.Unlike(a[i], b[k])
  {
    NewerIsUnlike(a[i], b[k]);
  }

  lemma BothHold(a: seq<seq<Entry>>, es: set<Entry>, b: seq<seq<Entry>>, fs: set<Entry>)
    requires HoldsAll(a, es) && HoldsAll(b, fs)
    ensures HoldsAll(a + b, es + fs)
  {
    var streams := a + b;
    forall e | e in es + fs ensures exists i :: 0 <= i < |streams| && e in streams[i] {
      if e in es {
        var i :| 0 <= i < |a| && e in a[i];
        assert e in streams[i];
      } else {
        var i :| 0 <= i < |b| && e in b[i];
        assert e in streams[|a| + i];
      }
    }
  }

  lemma StreamsMerge(streams: seq<seq<Entry>>, es: set<Entry>) returns (all: seq<Entry>)
    requires Streams(streams, es)
    ensures Merger.Merges(streams, all) && Sorted(all) && Elements(all) == es
  {
    all := Merger.MergeExists(streams);
    forall e ensures e in all <==> e in es {
      if e in all {
        var i :| 0 <= i < |streams| && e in streams[i];
      }
      if e in es {
        var i :| 0 <= i < |streams| && e in streams[i];
        assert Merger.HeldIn(streams[i], all);
      }
    }
  }
}
