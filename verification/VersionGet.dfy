/** Point lookup: memtables, then the levels of a version, newest first. The search
    stops at the first hit and opens at most one table per level below the first, yet
    returns what a scan of every entry would. */
module VersionGet {
  import opened Store

  // ----- what one sorted run answers -----

  /** `i` is where Seek lands in the sorted entries `es`. */
  ghost predicate SeekLands(es: seq<Entry>, key: InternalKey, i: nat) {
    i <= |es|
    && (forall j :: 0 <= j < i ==> Less(es[j].key, key))
    && forall j :: i <= j < |es| ==> !Less(es[j].key, key)
  }

  ghost predicate NoneVisible(es: seq<Entry>, k: UserKey, s: nat) {
    forall e :: e in es ==> !Visible(e, k, s)
  }

  lemma SeekAnswers(es: seq<Entry>, k: UserKey, s: nat, i: nat)
    requires Sorted(es) && SeekLands(es, SeekKey(k, s), i)
    ensures i < |es| && es[i].key.user == k ==> Newest(Elements(es), k, s, es[i])
    ensures i == |es| || es[i].key.user != k ==> NoneVisible(es, k, s)
  {
    forall j | 0 <= j < |es| && Visible(es[j], k, s)
      ensures i <= j && es[i].key.user == k && es[j].key.sequence <= es[i].key.sequence
    {
      assert !Less(es[j].key, SeekKey(k, s));
      assert i < j ==> Less(es[i].key, es[j].key);
    }
  }

  /** Table lookup (and MemTable::Get): the entry Seek lands on, if it has the right
      user key. */
  method Probe(es: seq<Entry>, k: UserKey, s: nat) returns (hit: bool, e: Entry)
    requires Sorted(es)
    ensures hit ==> Newest(Elements(es), k, s, e)
    ensures !hit ==> NoneVisible(es, k, s)
  {
    var i := 0;
    while i < |es| && Less(es[i].key, SeekKey(k, s))
      invariant i <= |es| && forall j :: 0 <= j < i ==> Less(es[j].key, SeekKey(k, s))
    {
      i := i + 1;
    }
    assert SeekLands(es, SeekKey(k, s), i) by {
      forall j | i <= j < |es| ensures !Less(es[j].key, SeekKey(k, s)) {
        assert i < j ==> Less(es[i].key, es[j].key);
      }
    }
    SeekAnswers(es, k, s, i);
    if i < |es| && es[i].key.user == k {
      return true, es[i];
    }
    e := *;
    return false, e;
  }

  // ----- one version -----

  ghost predicate NewerThan(es: seq<Entry>, fs: seq<Entry>) {
    forall e, f :: e in es && f in fs && e.key.user == f.key.user ==> e.key.sequence > f.key.sequence
  }

  /** Level 0: tables may overlap, and larger file numbers hold newer entries. */
  ghost predicate AgedByNumber(files: seq<File>) {
    (forall f :: f in files ==> GoodFile(f))
    && (forall i, j :: 0 <= i < j < |files| ==> files[i].number != files[j].number)
    && forall f, g :: f in files && g in files && f.number > g.number ==> NewerThan(f.entries, g.entries)
  }

  /** What the database maintains between levels: levels below the first are sorted and
      disjoint, and entries never sit above newer ones of their user key. */
  ghost predicate WellFormed(levels: seq<seq<File>>) {
    |levels| > 0
    && (forall l :: 0 < l < |levels| ==> SortedLevel(levels[l]))
    && AgedByNumber(levels[0])
    && forall l, l', f, g :: 0 <= l < l' < |levels| && f in levels[l] && g in levels[l'] ==> NewerThan(f.entries, g.entries)
  }

  ghost function AllEntries(levels: seq<seq<File>>): set<Entry> {
    set l, f, e | 0 <= l < |levels| && f in levels[l] && e in f.entries :: e
  }

  ghost predicate LevelMisses(fs: seq<File>, k: UserKey, s: nat) {
    forall f :: f in fs ==> NoneVisible(f.entries, k, s)
  }

  /** Binary search for the first file whose largest key is at or after `key`. */
  method FindFile(files: seq<File>, key: InternalKey) returns (right: nat)
    requires SortedLevel(files)
    ensures right <= |files|
    ensures forall i :: 0 <= i < right ==> Less(files[i].largest, key)
    ensures forall i :: right <= i < |files| ==> !Less(files[i].largest, key)
  {
    var left := 0;
    right := |files|;
    while left < right
      invariant left <= right <= |files|
      invariant forall i :: 0 <= i < left ==> Less(files[i].largest, key)
      invariant forall i :: right <= i < |files| ==> !Less(files[i].largest, key)
    {
      var mid := (left + right) / 2;
      FileRange(files, mid);
      if Less(files[mid].largest, key) {
        left := mid + 1;
      } else {
        right := mid;
      }
    }
  }

  lemma FileRange(fs: seq<File>, i: nat)
    requires SortedLevel(fs) && i < |fs|
    ensures forall e :: e in fs[i].entries ==> !Less(e.key, fs[i].smallest) && !Less(fs[i].largest, e.key)
    ensures forall j :: 0 <= j < i ==> Less(fs[j].largest, fs[i].largest)
    ensures forall j :: i < j < |fs| ==> Less(fs[i].largest, fs[j].largest)
  {
    var es := fs[i].entries;
    forall e | e in es ensures !Less(e.key, fs[i].smallest) && !Less(fs[i].largest, e.key) {
      var j :| 0 <= j < |es| && es[j] == e;
      assert (0 < j ==> Less(es[0].key, es[j].key)) && (j < |es| - 1 ==> Less(es[j].key, es[|es| - 1].key));
    }
    forall j | 0 <= j < |fs| ensures !Less(fs[j].largest, fs[j].smallest) {
      assert GoodFile(fs[j]) && (1 < |fs[j].entries| ==> Less(fs[j].smallest, fs[j].largest));
    }
  }

  lemma LaterFile(fs: seq<File>, k: UserKey, s: nat, index: nat, i: nat)
    requires SortedLevel(fs) && index < i < |fs| && !Less(fs[index].largest, SeekKey(k, s))
    ensures NoneVisible(fs[index].entries, k, s) ==> NoneVisible(fs[i].entries, k, s)
    ensures forall e, d :: e in fs[index].entries && d in fs[i].entries && Visible(e, k, s) && Visible(d, k, s) ==> e.key.sequence >= d.key.sequence
  {
    var f := fs[index];
    FileRange(fs, index);
    FileRange(fs, i);
    assert f.entries[|f.entries| - 1] in f.entries;
    assert Less(f.largest, fs[i].smallest);
  }

  /** Files other than the one FindFile picks hold nothing visible unless that one does. */
  lemma OneFileSuffices(fs: seq<File>, k: UserKey, s: nat, index: nat)
    requires SortedLevel(fs) && index <= |fs|
    requires forall i :: 0 <= i < index ==> Less(fs[i].largest, SeekKey(k, s))
    requires forall i :: index <= i < |fs| ==> !Less(fs[i].largest, SeekKey(k, s))
    ensures forall i :: 0 <= i < index ==> NoneVisible(fs[i].entries, k, s)
    ensures index < |fs| && (k < fs[index].smallest.user || NoneVisible(fs[index].entries, k, s)) ==> LevelMisses(fs, k, s)
    ensures index == |fs| ==> LevelMisses(fs, k, s)
    ensures forall i, e, d :: (index < i < |fs| && e in fs[index].entries && d in fs[i].entries
                               && Visible(e, k, s) && Visible(d, k, s)) ==> e.key.sequence >= d.key.sequence
  {
    forall i | 0 <= i < |fs| ensures i < index ==> NoneVisible(fs[i].entries, k, s) {
      FileRange(fs, i);
    }
    if index < |fs| {
      var f := fs[index];
      FileRange(fs, index);
      if k < f.smallest.user {
        assert NoneVisible(f.entries, k, s);
      }
      assert f.entries[|f.entries| - 1] in f.entries;
      forall i | index < i < |fs|
        ensures NoneVisible(f.entries, k, s) ==> NoneVisible(fs[i].entries, k, s)
        ensures forall e, d :: e in f.entries && d in fs[i].entries && Visible(e, k, s) && Visible(d, k, s) ==> e.key.sequence >= d.key.sequence
      {
        LaterFile(fs, k, s, index, i);
      }
    }
  }

  ghost predicate NewestFirst(files: seq<File>) {
    forall i, j :: 0 <= i < j < |files| ==> files[i].number >= files[j].number
  }

  lemma Insert(sorted: seq<File>, p: nat, f: File)
    requires NewestFirst(sorted) && p <= |sorted|
    requires forall i :: 0 <= i < p ==> sorted[i].number >= f.number
    requires p < |sorted| ==> sorted[p].number < f.number
    ensures NewestFirst(sorted[..p] + [f] + sorted[p..])
    ensures forall g :: g in sorted[..p] + [f] + sorted[p..] <==> g in sorted || g == f
  {
    assert sorted == sorted[..p] + sorted[p..];
    assert forall i :: p <= i < |sorted| ==> sorted[i].number < f.number;
  }

  /** std::sort by NewestFirst. */
  method SortNewestFirst(files: seq<File>) returns (sorted: seq<File>)
    ensures forall f :: f in sorted <==> f in files
    ensures NewestFirst(sorted)
  {
    sorted := [];
    for n := 0 to |files|
      invariant forall f :: f in sorted <==> f in files[..n]
      invariant NewestFirst(sorted)
    {
      var p := 0;
      while p < |sorted| && sorted[p].number >= files[n].number
        invariant p <= |sorted| && forall i :: 0 <= i < p ==> sorted[i].number >= files[n].number
      {
        p := p + 1;
      }
      Insert(sorted, p, files[n]);
      assert files[..n + 1] == files[..n] + [files[n]];
      sorted := sorted[..p] + [files[n]] + sorted[p..];
    }
  }

  lemma OutOfRange(f: File, k: UserKey, s: nat)
    requires GoodFile(f) && !(f.smallest.user <= k <= f.largest.user)
    ensures NoneVisible(f.entries, k, s)
  {
    FileRange([f], 0);
  }

  lemma NewestFileWins(files: seq<File>, tmp: seq<File>, k: UserKey, s: nat, i: nat, e: Entry)
    requires AgedByNumber(files) && i < |tmp| && forall f :: f in tmp ==> f in files
    requires forall f :: f in files && f !in tmp ==> NoneVisible(f.entries, k, s)
    requires NewestFirst(tmp)
    requires forall j :: 0 <= j < i ==> NoneVisible(tmp[j].entries, k, s)
    requires Newest(Elements(tmp[i].entries), k, s, e)
    ensures Newest(Contents(files), k, s, e)
  {
    var hitFile := tmp[i];
    assert hitFile in files && e in hitFile.entries;
    forall d | d in Contents(files) && Visible(d, k, s) ensures d.key.sequence <= e.key.sequence {
      var f :| f in files && d in f.entries;
      if f == hitFile {
        assert d in Elements(hitFile.entries);
      } else {
        OlderFile(files, tmp, i, f);
      }
    }
  }

  lemma OlderFile(files: seq<File>, tmp: seq<File>, i: nat, f: File)
    requires AgedByNumber(files) && i < |tmp| && tmp[i] in files && f in files && f != tmp[i]
    requires NewestFirst(tmp)
    requires f in tmp && f !in tmp[..i]
    ensures NewerThan(tmp[i].entries, f.entries)
  {
    var j :| 0 <= j < |tmp| && tmp[j] == f;
    assert f.number != tmp[i].number by {
      var a, b :| 0 <= a < |files| && 0 <= b < |files| && files[a] == f && files[b] == tmp[i];
    }
  }

  /** Level 0: every file whose range includes the key, newest file first. */
  method GetFromLevel0(files: seq<File>, k: UserKey, s: nat) returns (hit: bool, e: Entry)
    requires AgedByNumber(files)
    ensures hit ==> Newest(Contents(files), k, s, e)
    ensures !hit ==> LevelMisses(files, k, s)
  {
    var tmp := [];
    for i := 0 to |files|
      invariant forall f :: f in tmp <==> f in files[..i] && f.smallest.user <= k <= f.largest.user
    {
      if k >= files[i].smallest.user && k <= files[i].largest.user {
        tmp := tmp + [files[i]];
      }
    }
    tmp := SortNewestFirst(tmp);
    forall f | f in files && f !in tmp ensures NoneVisible(f.entries, k, s) {
      OutOfRange(f, k, s);
    }
    for i := 0 to |tmp|
      invariant forall j :: 0 <= j < i ==> NoneVisible(tmp[j].entries, k, s)
    {
      assert tmp[i] in tmp && GoodFile(tmp[i]);
      hit, e := Probe(tmp[i].entries, k, s);
      if hit {
        NewestFileWins(files, tmp, k, s, i, e);
        return;
      }
    }
    assert LevelMisses(files, k, s);
    e := *;
    return false, e;
  }

  /** A level below the first: the one file the binary search picks. */
  method GetFromLevel(files: seq<File>, k: UserKey, s: nat) returns (hit: bool, e: Entry)
    requires SortedLevel(files)
    ensures hit ==> Newest(Contents(files), k, s, e)
    ensures !hit ==> LevelMisses(files, k, s)
  {
    hide Newest, LevelMisses;
    var index := FindFile(files, SeekKey(k, s));
    OneFileSuffices(files, k, s, index);
    if index >= |files| || k < files[index].smallest.user {
      e := *;
      return false, e;
    }
    hit, e := Probe(files[index].entries, k, s);
    if hit {
      OneFileWins(files, k, s, index, e);
    }
  }

  lemma OneFileWins(files: seq<File>, k: UserKey, s: nat, index: nat, e: Entry)
    requires index < |files| && Newest(Elements(files[index].entries), k, s, e)
    requires forall i :: 0 <= i < index ==> NoneVisible(files[i].entries, k, s)
    requires forall i, e, d :: (index < i < |files| && e in files[index].entries && d in files[i].entries
                                && Visible(e, k, s) && Visible(d, k, s)) ==> e.key.sequence >= d.key.sequence
    ensures Newest(Contents(files), k, s, e)
  {
    forall d | d in Contents(files) && Visible(d, k, s) ensures d.key.sequence <= e.key.sequence {
      var i :| 0 <= i < |files| && d in files[i].entries;
      if i == index {
        assert d in Elements(files[index].entries);
      }
    }
  }

  lemma LevelIsReadable(levels: seq<seq<File>>, level: nat)
    requires WellFormed(levels) && level < |levels|
    ensures if level == 0 then AgedByNumber(levels[0]) else SortedLevel(levels[level])
  {
  }

  /** Version::Get. */
  method Get(levels: seq<seq<File>>, k: UserKey, s: nat) returns (hit: bool, r: ReadResult)
    requires WellFormed(levels) && DistinctSeqs(AllEntries(levels))
    ensures r == Lookup(AllEntries(levels), k, s)
    ensures hit <==> exists e :: e in AllEntries(levels) && Visible(e, k, s)
  {
    hide WellFormed, DistinctSeqs, LevelMisses, Newest, Lookup, SortedLevel, AgedByNumber;
    for level := 0 to |levels|
      invariant forall l :: 0 <= l < level ==> LevelMisses(levels[l], k, s)
    {
      var e;
      LevelIsReadable(levels, level);
      if level == 0 {
        hit, e := GetFromLevel0(levels[level], k, s);
      } else {
        hit, e := GetFromLevel(levels[level], k, s);
      }
      if hit {
        FirstLevelWins(levels, k, s, level, e);
        return true, Answer(e);
      }
    }
    AllLevelsMiss(levels, k, s);
    return false, NotFound;
  }

  /** A hit in one level is newer than everything visible below it. */
  lemma FirstLevelWins(levels: seq<seq<File>>, k: UserKey, s: nat, level: nat, e: Entry)
    requires WellFormed(levels) && DistinctSeqs(AllEntries(levels)) && level < |levels|
    requires forall l :: 0 <= l < level ==> LevelMisses(levels[l], k, s)
    requires Newest(Contents(levels[level]), k, s, e)
    ensures Newest(AllEntries(levels), k, s, e) && Lookup(AllEntries(levels), k, s) == Answer(e)
    ensures e in AllEntries(levels) && Visible(e, k, s)
  {
    var f :| f in levels[level] && e in f.entries;
    forall d | d in AllEntries(levels) && Visible(d, k, s) ensures d.key.sequence <= e.key.sequence {
      var l, g :| 0 <= l < |levels| && g in levels[l] && d in g.entries;
      if l == level {
        assert d in Contents(levels[level]);
      } else if level < l {
        assert NewerThan(f.entries, g.entries);
      }
    }
    LookupIs(AllEntries(levels), k, s, e);
  }

  lemma AllLevelsMiss(levels: seq<seq<File>>, k: UserKey, s: nat)
    requires forall l :: 0 <= l < |levels| ==> LevelMisses(levels[l], k, s)
    ensures forall e :: e in AllEntries(levels) ==> !Visible(e, k, s)
    ensures Lookup(AllEntries(levels), k, s) == NotFound
  {
  }

  // ----- the whole database -----

  ghost predicate NewerThanSet(es: seq<Entry>, fs: set<Entry>) {
    forall e, f :: e in es && f in fs && e.key.user == f.key.user ==> e.key.sequence > f.key.sequence
  }

  /** DBImpl::Get: current memtable, immutable memtable (empty when there is none),
      then the version. */
  method DBGet(mem: seq<Entry>, imm: seq<Entry>, levels: seq<seq<File>>, k: UserKey, s: nat) returns (r: ReadResult)
    requires Sorted(mem) && Sorted(imm) && WellFormed(levels)
    requires NewerThan(mem, imm) && NewerThanSet(mem, AllEntries(levels)) && NewerThanSet(imm, AllEntries(levels))
    requires DistinctSeqs(Elements(mem) + Elements(imm) + AllEntries(levels))
    ensures r == Lookup(Elements(mem) + Elements(imm) + AllEntries(levels), k, s)
  {
    var hit, e := Probe(mem, k, s);
    if hit {
      UpperWins(Elements(mem), Elements(imm) + AllEntries(levels), k, s, e);
      assert Elements(mem) + Elements(imm) + AllEntries(levels) == Elements(mem) + (Elements(imm) + AllEntries(levels));
      return Answer(e);
    }
    UpperMisses(Elements(mem), Elements(imm) + AllEntries(levels), k, s);
    assert Elements(mem) + Elements(imm) + AllEntries(levels) == Elements(mem) + (Elements(imm) + AllEntries(levels));
    hit, e := Probe(imm, k, s);
    if hit {
      UpperWins(Elements(imm), AllEntries(levels), k, s, e);
      return Answer(e);
    }
    UpperMisses(Elements(imm), AllEntries(levels), k, s);
    hit, r := Get(levels, k, s);
  }

  lemma UpperWins(upper: set<Entry>, lower: set<Entry>, k: UserKey, s: nat, e: Entry)
    requires DistinctSeqs(upper + lower) && Newest(upper, k, s, e)
    requires forall d, f :: d in upper && f in lower && d.key.user == f.key.user ==> d.key.sequence > f.key.sequence
    ensures Lookup(upper + lower, k, s) == Answer(e)
  {
    assert Newest(upper + lower, k, s, e);
    LookupIs(upper + lower, k, s, e);
  }

  lemma UpperMisses(upper: set<Entry>, lower: set<Entry>, k: UserKey, s: nat)
    requires DistinctSeqs(upper + lower) && forall e :: e in upper ==> !Visible(e, k, s)
    ensures Lookup(upper + lower, k, s) == Lookup(lower, k, s)
  {
    SameVisible(upper + lower, lower, k, s, s);
  }
}
