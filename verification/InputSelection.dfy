/** Which files a compaction takes: overlapping files, boundary files, and the level below. */
module InputSelection {
  import opened Store

  /** An optional user key; a missing one does not bound the range. */
  datatype Bound = Unbounded | At(user: UserKey)

  predicate EndsBefore(f: File, lo: Bound) {
    lo.At? && f.largest.user < lo.user
  }

  predicate StartsAfter(f: File, hi: Bound) {
    hi.At? && f.smallest.user > hi.user
  }

  predicate Overlaps(f: File, lo: Bound, hi: Bound) {
    !EndsBefore(f, lo) && !StartsAfter(f, hi)
  }

  predicate Inside(f: File, lo: Bound, hi: Bound) {
    (lo.At? ==> lo.user <= f.smallest.user) && (hi.At? ==> f.largest.user <= hi.user)
  }

  /** Every file is inside the range or apart from it. */
  ghost predicate Closed(files: seq<File>, lo: Bound, hi: Bound) {
    forall f :: f in files && Overlaps(f, lo, hi) ==> Inside(f, lo, hi)
  }

  predicate Within(lo: Bound, hi: Bound, lo': Bound, hi': Bound) {
    && (lo'.At? ==> lo.At? && lo'.user <= lo.user)
    && (hi'.At? ==> hi.At? && hi.user <= hi'.user)
  }

  /** The smallest closed range around the one asked for. */
  ghost predicate LeastClosed(files: seq<File>, begin: Bound, end: Bound, lo: Bound, hi: Bound) {
    Within(begin, end, lo, hi) && Closed(files, lo, hi) && Forced(files, begin, end, lo, hi)
  }

  /** Every closed range around the one asked for reaches this far. */
  ghost predicate Forced(files: seq<File>, begin: Bound, end: Bound, lo: Bound, hi: Bound) {
    forall lo', hi' :: Within(begin, end, lo', hi') && Closed(files, lo', hi') ==> Within(lo, hi, lo', hi')
  }

  lemma ForcedAtFirst(files: seq<File>, begin: Bound, end: Bound)
    ensures Forced(files, begin, end, begin, end)
  {
  }

  lemma StillForced(files: seq<File>, begin: Bound, end: Bound, lo: Bound, hi: Bound, f: File)
    requires Forced(files, begin, end, lo, hi) && f in files && Overlaps(f, lo, hi)
    ensures lo.At? ==> Forced(files, begin, end, At(f.smallest.user), hi)
    ensures hi.At? ==> Forced(files, begin, end, lo, At(f.largest.user))
  {
    forall lo', hi' | Within(begin, end, lo', hi') && Closed(files, lo', hi')
      ensures Inside(f, lo', hi') && Within(lo, hi, lo', hi')
    {
      assert Within(lo, hi, lo', hi');
      assert Overlaps(f, lo', hi');
    }
  }

  /** The files that overlap a range, in their order. */
  function Overlapping(files: seq<File>, lo: Bound, hi: Bound): seq<File> {
    if files == [] then []
    else
      var last := files[|files| - 1];
      Overlapping(files[..|files| - 1], lo, hi) + if Overlaps(last, lo, hi) then [last] else []
  }

  /** Files that would still widen the range downwards or upwards. */
  ghost function Outside(files: seq<File>, lo: Bound, hi: Bound): set<(nat, bool)> {
    (set i: nat | i < |files| && lo.At? && files[i].smallest.user < lo.user :: (i, false))
    + (set i: nat | i < |files| && hi.At? && hi.user < files[i].largest.user :: (i, true))
  }

  lemma FewerOutside(files: seq<File>, lo: Bound, hi: Bound, i: nat)
    requires i < |files|
    ensures lo.At? && files[i].smallest.user < lo.user ==>
              |Outside(files, At(files[i].smallest.user), hi)| < |Outside(files, lo, hi)|
    ensures hi.At? && hi.user < files[i].largest.user ==>
              |Outside(files, lo, At(files[i].largest.user))| < |Outside(files, lo, hi)|
  {
    var was := Outside(files, lo, hi);
    if lo.At? && files[i].smallest.user < lo.user {
      assert (i, false) in was;
      ProperSubset(Outside(files, At(files[i].smallest.user), hi), was);
    }
    if hi.At? && hi.user < files[i].largest.user {
      assert (i, true) in was;
      ProperSubset(Outside(files, lo, At(files[i].largest.user)), was);
    }
  }

  lemma {:induction false} ProperSubset<T>(a: set<T>, b: set<T>)
    requires a < b
    ensures |a| < |b|
  {
    var x :| x in b && x !in a;
    if a != {} {
      var y :| y in a;
      ProperSubset(a - {y}, b - {y});
    }
  }

  /** At level 0 the search starts over whenever a file widens the range; it ends with the
      smallest range that no file straddles. Deeper levels are not widened. */
  method GetOverlappingInputs(level: nat, files: seq<File>, begin: Bound, end: Bound)
    returns (inputs: seq<File>, ghost lo: Bound, ghost hi: Bound)
    ensures inputs == Overlapping(files, lo, hi)
    ensures level > 0 ==> lo == begin && hi == end
    ensures level == 0 ==> LeastClosed(files, begin, end, lo, hi)
    ensures if level > 0 then inputs == Overlapping(files, begin, end)
            else exists lo', hi' :: LeastClosed(files, begin, end, lo', hi') && inputs == Overlapping(files, lo', hi')
  {
    hide Outside, Forced;
    inputs := [];
    ForcedAtFirst(files, begin, end);
    var userBegin, userEnd := begin, end;
    var i := 0;
    while i < |files|
      invariant i <= |files|
      invariant inputs == Overlapping(files[..i], userBegin, userEnd)
      invariant level > 0 ==> userBegin == begin && userEnd == end
      invariant Within(begin, end, userBegin, userEnd)
      invariant Forced(files, begin, end, userBegin, userEnd)
      invariant level == 0 ==> Closed(files[..i], userBegin, userEnd)
      decreases |Outside(files, userBegin, userEnd)|, |files| - i
    {
      var f := files[i];
      FewerOutside(files, userBegin, userEnd, i);
      assert files[..i + 1][..i] == files[..i];
      i := i + 1;
      if EndsBefore(f, userBegin) {
      } else if StartsAfter(f, userEnd) {
      } else {
        inputs := inputs + [f];
        StillForced(files, begin, end, userBegin, userEnd, f);
        if level == 0 {
          if userBegin.At? && f.smallest.user < userBegin.user {
            userBegin := At(f.smallest.user);
            inputs, i := [], 0;
          } else if userEnd.At? && f.largest.user > userEnd.user {
            userEnd := At(f.largest.user);
            inputs, i := [], 0;
          }
        }
      }
    }
    assert files[..i] == files;
    lo, hi := userBegin, userEnd;
  }

  // ----- boundary files -----

  /** A file that starts later within the user key at which the inputs end. */
  predicate Boundary(f: File, key: InternalKey) {
    Less(key, f.smallest) && f.smallest.user == key.user
  }

  ghost predicate NextBoundary(levelFiles: seq<File>, key: InternalKey, f: File) {
    f in levelFiles && Boundary(f, key)
    && forall g :: g in levelFiles && Boundary(g, key) ==> !Less(g.smallest, f.smallest)
  }

  ghost predicate IsLargest(files: seq<File>, key: InternalKey) {
    (exists f :: f in files && f.largest == key) && forall f :: f in files ==> !Less(key, f.largest)
  }

  ghost predicate IsSmallest(files: seq<File>, key: InternalKey) {
    (exists f :: f in files && f.smallest == key) && forall f :: f in files ==> !Less(f.smallest, key)
  }

  /** No file of the level goes on with the user key the inputs end with. */
  ghost predicate BoundaryClosed(levelFiles: seq<File>, inputs: seq<File>) {
    forall key, f :: IsLargest(inputs, key) && f in levelFiles ==> !Boundary(f, key)
  }

  method FindLargestKey(files: seq<File>) returns (found: bool, largestKey: InternalKey)
    ensures found <==> files != []
    ensures found ==> IsLargest(files, largestKey)
  {
    found, largestKey := false, *;
    if files == [] {
      return;
    }
    largestKey := files[0].largest;
    for i := 1 to |files|
      invariant exists f :: f in files && f.largest == largestKey
      invariant forall j :: 0 <= j < i ==> !Less(largestKey, files[j].largest)
    {
      if Less(largestKey, files[i].largest) {
        largestKey := files[i].largest;
      }
    }
    found := true;
  }

  method FindSmallestBoundaryFile(levelFiles: seq<File>, largestKey: InternalKey) returns (found: bool, file: File)
    ensures found ==> NextBoundary(levelFiles, largestKey, file)
    ensures !found ==> forall f :: f in levelFiles ==> !Boundary(f, largestKey)
  {
    found, file := false, *;
    for i := 0 to |levelFiles|
      invariant found ==> file in levelFiles && Boundary(file, largestKey)
      invariant forall j :: 0 <= j < i && Boundary(levelFiles[j], largestKey) ==> found && !Less(levelFiles[j].smallest, file.smallest)
    {
      var f := levelFiles[i];
      if Less(largestKey, f.smallest) && f.smallest.user == largestKey.user {
        if !found || Less(f.smallest, file.smallest) {
          found, file := true, f;
        }
      }
    }
  }

  ghost function Later(levelFiles: seq<File>, key: InternalKey): set<File> {
    set f | f in levelFiles && Less(key, f.smallest)
  }

  /** `out` grows from `base` by one next boundary file after another. */
  ghost predicate Extends(levelFiles: seq<File>, base: seq<File>, out: seq<File>)
    decreases |out|
  {
    out == base
    || (|base| < |out|
        && Extends(levelFiles, base, out[..|out| - 1])
        && FollowsOn(levelFiles, out[..|out| - 1], out[|out| - 1]))
  }

  ghost predicate FollowsOn(levelFiles: seq<File>, files: seq<File>, f: File) {
    exists key :: IsLargest(files, key) && NextBoundary(levelFiles, key, f)
  }

  lemma ExtendsOne(levelFiles: seq<File>, base: seq<File>, out: seq<File>, key: InternalKey, f: File)
    requires Extends(levelFiles, base, out) && IsLargest(out, key) && NextBoundary(levelFiles, key, f) && |base| <= |out|
    requires GoodFile(f)
    ensures Extends(levelFiles, base, out + [f]) && IsLargest(out + [f], f.largest)
    ensures Later(levelFiles, f.largest) < Later(levelFiles, key)
  {
    GoodFileSpans(f);
    hide GoodFile;
    assert (out + [f])[..|out|] == out;
    assert f in out + [f] && f in Later(levelFiles, key) && f !in Later(levelFiles, f.largest);
  }

  lemma {:induction false} LargestIsUnique(files: seq<File>, a: InternalKey, b: InternalKey)
    requires IsLargest(files, a) && IsLargest(files, b)
    ensures a == b
  {
  }

  /** Each file added is the next boundary file of those before it, and none is left. */
  method AddBoundaryInputs(levelFiles: seq<File>, compactionFiles: seq<File>) returns (out: seq<File>)
    requires forall f :: f in levelFiles ==> GoodFile(f)
    ensures |compactionFiles| <= |out| && Extends(levelFiles, compactionFiles, out)
    ensures compactionFiles == [] ==> out == []
    ensures BoundaryClosed(levelFiles, out)
  {
    hide GoodFile, NextBoundary, Later;
    out := compactionFiles;
    var found, largestKey := FindLargestKey(out);
    if !found {
      return out;
    }
    var continueSearching := true;
    while continueSearching
      invariant 0 < |compactionFiles| <= |out| && Extends(levelFiles, compactionFiles, out) && IsLargest(out, largestKey)
      invariant !continueSearching ==> forall f :: f in levelFiles ==> !Boundary(f, largestKey)
      decreases Later(levelFiles, largestKey), continueSearching
    {
      var more, f := FindSmallestBoundaryFile(levelFiles, largestKey);
      if more {
        assert f in levelFiles by { IsInLevel(levelFiles, largestKey, f); }
        ExtendsOne(levelFiles, compactionFiles, out, largestKey, f);
        out := out + [f];
        largestKey := f.largest;
      } else {
        continueSearching := false;
      }
    }
    forall key | IsLargest(out, key) ensures key == largestKey {
      LargestIsUnique(out, key, largestKey);
    }
  }

  lemma IsInLevel(levelFiles: seq<File>, key: InternalKey, f: File)
    requires NextBoundary(levelFiles, key, f)
    ensures f in levelFiles
  {
  }

  lemma GoodFileSpans(f: File)
    requires GoodFile(f)
    ensures f.smallest == f.largest || Less(f.smallest, f.largest)
    ensures forall e :: e in f.entries ==> !Less(e.key, f.smallest) && !Less(f.largest, e.key)
  {
  }

  // ----- both input levels -----

  lemma {:induction false} OverlappingMember(files: seq<File>, lo: Bound, hi: Bound, f: File)
    ensures f in Overlapping(files, lo, hi) <==> f in files && Overlaps(f, lo, hi)
  {
    if files != [] {
      OverlappingMember(files[..|files| - 1], lo, hi, f);
      assert files == files[..|files| - 1] + [files[|files| - 1]];
    }
  }

  /** A wider range that picks no more files picks the same ones. */
  lemma {:induction false} WiderPicksMore(files: seq<File>, lo: Bound, hi: Bound, lo': Bound, hi': Bound)
    requires Within(lo, hi, lo', hi')
    ensures |Overlapping(files, lo, hi)| <= |Overlapping(files, lo', hi')|
    ensures |Overlapping(files, lo, hi)| == |Overlapping(files, lo', hi')| ==> Overlapping(files, lo, hi) == Overlapping(files, lo', hi')
  {
    if files != [] {
      WiderPicksMore(files[..|files| - 1], lo, hi, lo', hi');
    }
  }

  /** What a search over the range of `above` finds in the level below it. */
  ghost predicate PicksBelow(below: seq<File>, above: seq<File>, picked: seq<File>) {
    forall smallest, largest :: IsSmallest(above, smallest) && IsLargest(above, largest) ==>
      picked == Overlapping(below, At(smallest.user), At(largest.user))
  }

  ghost predicate IsRun(files: seq<File>, sel: seq<File>) {
    exists i, j :: 0 <= i < j <= |files| && sel == files[i..j]
  }

  /** All the files of a range that no file straddles. */
  ghost predicate IsCluster(files: seq<File>, sel: seq<File>) {
    exists lo, hi :: Closed(files, lo, hi) && sel == Overlapping(files, lo, hi)
  }

  function TotalFileSize(files: seq<File>): nat {
    if files == [] then 0 else TotalFileSize(files[..|files| - 1]) + files[|files| - 1].size
  }

  method GetRange(inputs: seq<File>) returns (smallest: InternalKey, largest: InternalKey)
    requires inputs != []
    ensures IsSmallest(inputs, smallest) && IsLargest(inputs, largest)
  {
    smallest, largest := inputs[0].smallest, inputs[0].largest;
    for i := 1 to |inputs|
      invariant exists f :: f in inputs && f.smallest == smallest
      invariant exists f :: f in inputs && f.largest == largest
      invariant forall j :: 0 <= j < i ==> !Less(inputs[j].smallest, smallest) && !Less(largest, inputs[j].largest)
    {
      if Less(inputs[i].smallest, smallest) {
        smallest := inputs[i].smallest;
      }
      if Less(largest, inputs[i].largest) {
        largest := inputs[i].largest;
      }
    }
  }

  lemma SmallestIsUnique(files: seq<File>, a: InternalKey, b: InternalKey)
    requires IsSmallest(files, a) && IsSmallest(files, b)
    ensures a == b
  {
  }

  lemma PicksBelowHolds(below: seq<File>, above: seq<File>, picked: seq<File>, smallest: InternalKey, largest: InternalKey)
    requires IsSmallest(above, smallest) && IsLargest(above, largest)
    requires picked == Overlapping(below, At(smallest.user), At(largest.user))
    ensures PicksBelow(below, above, picked)
  {
    forall a, b | IsSmallest(above, a) && IsLargest(above, b) ensures a == smallest && b == largest {
      SmallestIsUnique(above, a, smallest);
      LargestIsUnique(above, b, largest);
    }
  }

  lemma {:induction false} ExtendsMember(levelFiles: seq<File>, base: seq<File>, out: seq<File>)
    requires Extends(levelFiles, base, out)
    ensures forall f :: f in base ==> f in out
    ensures forall f :: f in out ==> f in base || f in levelFiles
    decreases |out|
  {
    if out != base {
      ExtendsMember(levelFiles, base, out[..|out| - 1]);
      assert out == out[..|out| - 1] + [out[|out| - 1]];
    }
  }

  /** A file picked with its neighbours overlaps any range spanning them all. */
  lemma StaysPicked(files: seq<File>, all: seq<File>, start: InternalKey, limit: InternalKey, lo: Bound, hi: Bound, f: File)
    requires f in files && f in all && GoodFile(f)
    requires IsSmallest(all, start) && IsLargest(all, limit)
    requires Within(At(start.user), At(limit.user), lo, hi)
    ensures f in Overlapping(files, lo, hi)
  {
    GoodFileSpans(f);
    OverlappingMember(files, lo, hi, f);
  }

  lemma RangeGrows(small: seq<File>, big: seq<File>, s0: InternalKey, l0: InternalKey, s1: InternalKey, l1: InternalKey)
    requires IsSmallest(small, s0) && IsLargest(small, l0) && IsSmallest(big, s1) && IsLargest(big, l1)
    requires forall f :: f in small ==> f in big
    ensures Within(At(s0.user), At(l0.user), At(s1.user), At(l1.user))
  {
  }

  /** A cluster of a level has no boundary files. */
  lemma ClusterIsClosed(files: seq<File>, sel: seq<File>, f: File)
    requires IsCluster(files, sel) && forall g :: g in files ==> GoodFile(g)
    ensures !FollowsOn(files, sel, f)
  {
    if FollowsOn(files, sel, f) {
      var lo, hi :| Closed(files, lo, hi) && sel == Overlapping(files, lo, hi);
      var key :| IsLargest(sel, key) && NextBoundary(files, key, f);
      var g :| g in sel && g.largest == key;
      OverlappingMember(files, lo, hi, g);
      GoodFileSpans(g);
      GoodFileSpans(f);
      OverlappingMember(files, lo, hi, f);
    }
  }

  lemma {:induction false} ClusterStays(files: seq<File>, sel: seq<File>, out: seq<File>)
    requires IsCluster(files, sel) && Extends(files, sel, out) && forall g :: g in files ==> GoodFile(g)
    ensures out == sel
    decreases |out|
  {
    if out != sel {
      ClusterStays(files, sel, out[..|out| - 1]);
      ClusterIsClosed(files, sel, out[|out| - 1]);
    }
  }

  /** Files of a sorted level, by position. */
  lemma LevelOrder(files: seq<File>, m: nat, n: nat)
    requires SortedLevel(files) && m <= n < |files|
    ensures GoodFile(files[m]) && !Less(files[m].largest, files[m].smallest) && !Less(files[n].largest, files[n].smallest)
    ensures m < n ==> Less(files[m].largest, files[n].smallest)
    ensures m < n ==> Less(files[m].smallest, files[n].smallest) && Less(files[m].largest, files[n].largest)
  {
    GoodFileSpans(files[m]);
    GoodFileSpans(files[n]);
  }

  lemma KeyIsLast(files: seq<File>, i: nat, j: nat, key: InternalKey)
    requires SortedLevel(files) && i < j <= |files| && IsLargest(files[i..j], key)
    ensures key == files[j - 1].largest
  {
    hide SortedLevel;
    var run := files[i..j];
    var g :| g in run && g.largest == key;
    var n :| 0 <= n < |run| && run[n] == g;
    assert run[j - 1 - i] == files[j - 1] && run[n] == files[i + n];
    LevelOrder(files, i + n, j - 1);
  }

  lemma NextStarts(files: seq<File>, j: nat, m: nat, key: InternalKey)
    requires SortedLevel(files) && 0 < j < m < |files| && key == files[j - 1].largest && Boundary(files[m], key)
    ensures Boundary(files[j], key) && Less(files[j].smallest, files[m].smallest)
  {
    LevelOrder(files, j - 1, j);
    LevelOrder(files, j, m);
  }

  lemma RunGrows(files: seq<File>, i: nat, j: nat, f: File)
    requires SortedLevel(files) && i < j <= |files|
    requires FollowsOn(files, files[i..j], f)
    ensures j < |files| && f == files[j]
  {
    hide SortedLevel, GoodFile;
    var key :| IsLargest(files[i..j], key) && NextBoundary(files, key, f);
    KeyIsLast(files, i, j, key);
    hide IsLargest;
    var m :| 0 <= m < |files| && files[m] == f;
    if m < j {
      LevelOrder(files, m, j - 1);
    } else if j < m {
      NextStarts(files, j, m, key);
    }
  }

  lemma {:induction false} RunExtends(files: seq<File>, i: nat, j: nat, out: seq<File>) returns (k: nat)
    requires SortedLevel(files) && i < j <= |files| && Extends(files, files[i..j], out)
    ensures j <= k <= |files| && out == files[i..k]
    decreases |out|
  {
    hide SortedLevel, FollowsOn;
    k := j;
    if out != files[i..j] {
      k := RunExtends(files, i, j, out[..|out| - 1]);
      RunGrows(files, i, k, out[|out| - 1]);
      k := k + 1;
    }
  }

  /** In a sorted level the overlapping files stand together. */
  lemma {:induction false} OverlappingRun(files: seq<File>, lo: Bound, hi: Bound) returns (i: nat, j: nat)
    requires SortedLevel(files)
    ensures i <= j <= |files| && Overlapping(files, lo, hi) == files[i..j]
    ensures forall m :: 0 <= m < i ==> EndsBefore(files[m], lo)
    ensures forall m :: i <= m < j ==> Overlaps(files[m], lo, hi)
    ensures forall m :: j <= m < |files| ==> StartsAfter(files[m], hi)
  {
    hide SortedLevel, Overlapping, UserOrder;
    i, j := 0, 0;
    if files == [] {
      NothingOverlaps(lo, hi);
    } else {
      var n := |files| - 1;
      LastInOrder(files);
      i, j := OverlappingRun(files[..n], lo, hi);
      assert files[..n][i..j] == files[i..j];
      assert forall m :: 0 <= m < n ==> files[..n][m] == files[m];
      i, j := RunStep(files, lo, hi, i, j);
    }
  }

  lemma NothingOverlaps(lo: Bound, hi: Bound)
    ensures Overlapping([], lo, hi) == []
  {
  }

  lemma LastInOrder(files: seq<File>)
    requires SortedLevel(files) && files != []
    ensures
      var n := |files| - 1;
      && SortedLevel(files[..n]) && files[n].smallest.user <= files[n].largest.user
      && forall m :: 0 <= m < n ==> UserOrder(files[m], files[n])
  {
    var n := |files| - 1;
    forall m | 0 <= m < n ensures UserOrder(files[m], files[n]) {
      LevelOrder(files, m, n);
    }
    LevelOrder(files, n, n);
  }

  ghost predicate UserOrder(f: File, g: File) {
    f.smallest.user <= f.largest.user <= g.smallest.user
  }

  lemma LastOverlaps(files: seq<File>, lo: Bound, hi: Bound)
    requires files != []
    ensures
      var n := |files| - 1;
      Overlapping(files, lo, hi) == Overlapping(files[..n], lo, hi) + if Overlaps(files[n], lo, hi) then [files[n]] else []
  {
  }

  lemma StartsEarlier(files: seq<File>, j: nat, hi: Bound)
    requires j < |files| && !StartsAfter(files[|files| - 1], hi)
    requires forall m :: 0 <= m < |files| - 1 ==> UserOrder(files[m], files[|files| - 1])
    ensures j < |files| - 1 ==> !StartsAfter(files[j], hi)
  {
  }

  lemma RunStep(files: seq<File>, lo: Bound, hi: Bound, i: nat, j: nat) returns (i': nat, j': nat)
    requires i <= j < |files| && Overlapping(files[..|files| - 1], lo, hi) == files[i..j]
    requires forall m :: 0 <= m < |files| - 1 ==> UserOrder(files[m], files[|files| - 1])
    requires files[|files| - 1].smallest.user <= files[|files| - 1].largest.user
    requires forall m :: 0 <= m < i ==> EndsBefore(files[m], lo)
    requires forall m :: i <= m < j ==> Overlaps(files[m], lo, hi)
    requires forall m :: j <= m < |files| - 1 ==> StartsAfter(files[m], hi)
    ensures i' <= j' <= |files| && Overlapping(files, lo, hi) == files[i'..j']
    ensures forall m :: 0 <= m < i' ==> EndsBefore(files[m], lo)
    ensures forall m :: i' <= m < j' ==> Overlaps(files[m], lo, hi)
    ensures forall m :: j' <= m < |files| ==> StartsAfter(files[m], hi)
  {
    hide Overlapping, SortedLevel, GoodFile;
    var n := |files| - 1;
    LastOverlaps(files, lo, hi);
    i', j' := i, j;
    if EndsBefore(files[n], lo) {
      forall m | 0 <= m < n ensures EndsBefore(files[m], lo) {
        assert UserOrder(files[m], files[n]);
      }
      assert i < j ==> Overlaps(files[i], lo, hi);
      assert i == j && files[i..j] == [] == files[n + 1..n + 1];
      i', j' := n + 1, n + 1;
    } else if Overlaps(files[n], lo, hi) {
      StartsEarlier(files, j, hi);
      assert j == n && files[i..n] + [files[n]] == files[i..n + 1];
      j' := n + 1;
    }
  }

  /** What the pickers start from: at level 0 a cluster, below that a run. */
  ghost predicate Shape(level: nat, files: seq<File>, sel: seq<File>) {
    if level == 0 then IsCluster(files, sel) else SortedLevel(files) && IsRun(files, sel)
  }

  lemma KeepsShape(level: nat, files: seq<File>, base: seq<File>, out: seq<File>)
    requires Extends(files, base, out) && forall f :: f in files ==> GoodFile(f)
    ensures Shape(level, files, base) ==> Shape(level, files, out)
  {
    if Shape(level, files, base) {
      if level == 0 {
        ClusterStays(files, base, out);
      } else {
        var i, j :| 0 <= i < j <= |files| && base == files[i..j];
        var k := RunExtends(files, i, j, out);
      }
    }
  }

  lemma PickedShape(level: nat, files: seq<File>, inputs0: seq<File>, lo: Bound, hi: Bound, picked: seq<File>)
    requires Shape(level, files, inputs0) && picked == Overlapping(files, lo, hi) && picked != []
    requires level == 0 ==> Closed(files, lo, hi)
    ensures Shape(level, files, picked)
  {
    if level > 0 {
      var i, j := OverlappingRun(files, lo, hi);
    }
  }

  /** All of a level that overlaps the range of `chosen`, and its boundary files: what the upper
      inputs may be widened to. */
  ghost predicate Widened(level: nat, files: seq<File>, chosen: seq<File>, wide: seq<File>) {
    exists smallest, largest, lo, hi :: WidenedBy(level, files, chosen, wide, smallest, largest, lo, hi)
  }

  ghost predicate WidenedBy(level: nat, files: seq<File>, chosen: seq<File>, wide: seq<File>,
                            smallest: InternalKey, largest: InternalKey, lo: Bound, hi: Bound)
  {
    && IsSmallest(chosen, smallest) && IsLargest(chosen, largest)
    && (if level == 0 then LeastClosed(files, At(smallest.user), At(largest.user), lo, hi) else lo == At(smallest.user) && hi == At(largest.user))
    && Extends(files, Overlapping(files, lo, hi), wide) && BoundaryClosed(files, wide)
  }

  /** The upper inputs are widened if that adds files, keeps within the limit, and brings in no
      lower file. */
  ghost predicate MayWiden(below: seq<File>, narrow: seq<File>, wide: seq<File>, in1: seq<File>, limit: nat) {
    in1 != [] && |wide| > |narrow| && TotalFileSize(in1) + TotalFileSize(wide) < limit && PicksBelow(below, wide, in1)
  }

  lemma MustNotWiden(below: seq<File>, narrow: seq<File>, wide: seq<File>, in1: seq<File>, limit: nat, start: InternalKey, end: InternalKey)
    requires IsSmallest(wide, start) && IsLargest(wide, end) && |Overlapping(below, At(start.user), At(end.user))| != |in1|
    ensures !MayWiden(below, narrow, wide, in1, limit)
  {
  }

  method Widen(level: nat, files: seq<File>, in0: seq<File>, in1: seq<File>, ghost inputs0: seq<File>) returns (wide: seq<File>)
    requires (forall f :: f in files ==> GoodFile(f)) && in0 != [] && forall f :: f in in0 ==> f in files
    ensures Widened(level, files, in0 + in1, wide) && BoundaryClosed(files, wide)
    ensures (forall f :: f in in0 ==> f in wide) && forall f :: f in wide ==> f in files
    ensures Shape(level, files, inputs0) ==> Shape(level, files, wide)
  {
    hide Extends, IsLargest, IsSmallest, GoodFile, BoundaryClosed, Shape, Forced;
    var allStart, allLimit := GetRange(in0 + in1);
    ghost var lo, hi;
    wide, lo, hi := GetOverlappingInputs(level, files, At(allStart.user), At(allLimit.user));
    ghost var base := wide;
    wide := AddBoundaryInputs(files, wide);
    assert WidenedBy(level, files, in0 + in1, wide, allStart, allLimit, lo, hi);
    ExtendsMember(files, base, wide);
    forall f | f in in0 ensures f in wide {
      assert f in in0 + in1;
      StaysPicked(files, in0 + in1, allStart, allLimit, lo, hi, f);
    }
    forall f | f in base ensures f in files {
      OverlappingMember(files, lo, hi, f);
    }
    if Shape(level, files, inputs0) {
      assert in0[0] in in0 && base != [];
      PickedShape(level, files, inputs0, lo, hi, base);
      KeepsShape(level, files, base, wide);
    }
  }

  /** SetupOtherInputs: the boundary files of the upper level, everything below that
      overlaps, then as much more of the upper level as leaves the lower choice alone. */
  method SetupOtherInputs(levels: seq<seq<File>>, level: nat, inputs0: seq<File>, expandedLimit: nat)
    returns (in0: seq<File>, in1: seq<File>, ghost narrow: seq<File>, ghost wide: seq<File>)
    requires level + 1 < |levels| && forall l, f :: 0 <= l < |levels| && f in levels[l] ==> GoodFile(f)
    requires inputs0 != [] && forall f :: f in inputs0 ==> f in levels[level]
    ensures Extends(levels[level], inputs0, narrow) && BoundaryClosed(levels[level], narrow) && PicksBelow(levels[level + 1], narrow, in1)
    ensures in1 != [] ==> Widened(level, levels[level], narrow + in1, wide)
    ensures in0 == if MayWiden(levels[level + 1], narrow, wide, in1, expandedLimit) then wide else narrow
    ensures forall f :: f in narrow ==> f in in0
    ensures forall f :: f in in0 ==> f in levels[level]
    ensures BoundaryClosed(levels[level], in0) && PicksBelow(levels[level + 1], in0, in1)
    ensures Shape(level, levels[level], inputs0) ==> Shape(level, levels[level], in0)
  {
    hide Extends, IsLargest, IsSmallest, GoodFile, BoundaryClosed, PicksBelow, Shape, SortedLevel, Widened;
    in0 := AddBoundaryInputs(levels[level], inputs0);
    KeepsShape(level, levels[level], inputs0, in0);
    narrow, wide := in0, in0;
    ExtendsMember(levels[level], inputs0, in0);
    assert in0 != [] by { assert inputs0[0] in in0; }
    var smallest, largest := GetRange(in0);
    ghost var lo, hi;
    in1, lo, hi := GetOverlappingInputs(level + 1, levels[level + 1], At(smallest.user), At(largest.user));
    PicksBelowHolds(levels[level + 1], in0, in1, smallest, largest);
    if in1 != [] {
      var expanded0 := Widen(level, levels[level], in0, in1, inputs0);
      wide := expanded0;
      if |expanded0| > |in0| && TotalFileSize(in1) + TotalFileSize(expanded0) < expandedLimit {
        var newStart, newLimit := GetRange(expanded0);
        var expanded1;
        expanded1, lo, hi := GetOverlappingInputs(level + 1, levels[level + 1], At(newStart.user), At(newLimit.user));
        if |expanded1| == |in1| {
          RangeGrows(in0, expanded0, smallest, largest, newStart, newLimit);
          WiderPicksMore(levels[level + 1], At(smallest.user), At(largest.user), lo, hi);
          PicksBelowHolds(levels[level + 1], expanded0, expanded1, newStart, newLimit);
          in0, in1 := expanded0, expanded1;
        } else {
          MustNotWiden(levels[level + 1], narrow, wide, in1, expandedLimit, newStart, newLimit);
        }
      }
    }
  }
}
