/** The merge step of a compaction: which entries of the sorted input stream survive,
    and why reads cannot tell the difference. */
module CompactionWork {
  import opened Store

  /** kNumLevels */
  const LEVELS: nat := 7

  /** Some file two or more levels below `level` has a range that includes `k`. */
  ghost predicate Covered(files: seq<seq<File>>, level: nat, k: UserKey) {
    exists lvl, i :: level + 2 <= lvl < |files| && 0 <= i < |files[lvl]| && InRange(files[lvl][i], k)
  }

  predicate InRange(f: File, k: UserKey) {
    f.smallest.user <= k <= f.largest.user
  }

  class Compaction {
    const level: nat
    /** files_ of the input version. */
    const files: seq<seq<File>>
    /** level_ptrs_: for each level, a cursor that only moves forward. */
    const levelPtrs: array<nat>

    ghost predicate Valid()
      reads this, levelPtrs
    {
      |files| == LEVELS && levelPtrs.Length == LEVELS
      && forall lvl :: level + 2 <= lvl < LEVELS ==> SortedLevel(files[lvl]) && levelPtrs[lvl] <= |files[lvl]|
    }

    /** Every file a cursor has left behind ends before `k`. */
    ghost predicate Passed(k: UserKey)
      reads this, levelPtrs
      requires Valid()
    {
      forall lvl, i :: level + 2 <= lvl < LEVELS && 0 <= i < levelPtrs[lvl] ==> files[lvl][i].largest.user < k
    }

    constructor (level: nat, files: seq<seq<File>>)
      requires |files| == LEVELS && forall lvl :: level + 2 <= lvl < LEVELS ==> SortedLevel(files[lvl])
      ensures Valid() && fresh(levelPtrs) && this.level == level && this.files == files
      ensures forall k :: Passed(k)
    {
      this.level := level;
      this.files := files;
      levelPtrs := new nat[LEVELS](_ => 0);
    }

    /** Exact for every sequence of calls with nondecreasing keys, although the
        cursors never move back. */
    method IsBaseLevelForKey(k: UserKey) returns (base: bool)
      requires Valid() && Passed(k)
      modifies levelPtrs
      ensures Valid() && Passed(k)
      ensures base <==> !Covered(files, level, k)
    {
      var lvl := level + 2;
      while lvl < LEVELS
        invariant Valid() && Passed(k)
        invariant level + 2 <= lvl
        invariant forall l, i :: level + 2 <= l < lvl && l < LEVELS && 0 <= i < |files[l]| ==> !InRange(files[l][i], k)
      {
        var fs := files[lvl];
        while levelPtrs[lvl] < |fs|
          invariant Valid() && Passed(k)
          invariant forall i :: 0 <= i < levelPtrs[lvl] ==> !InRange(fs[i], k)
          decreases |fs| - levelPtrs[lvl]
        {
          var f := fs[levelPtrs[lvl]];
          if k <= f.largest.user {
            if k >= f.smallest.user {
              assert InRange(files[lvl][levelPtrs[lvl]], k);
              return false;
            }
            forall i | levelPtrs[lvl] <= i < |fs| ensures !InRange(fs[i], k) {
              if levelPtrs[lvl] < i {
                assert Less(f.largest, fs[i].smallest);
              }
            }
            break;
          }
          levelPtrs[lvl] := levelPtrs[lvl] + 1;
        }
        lvl := lvl + 1;
      }
      return true;
    }
  }

  // ----- the drop rule -----

  /** Rule (A): the entry before has the same user key and is old enough that every
      snapshot in use sees it or something newer. */
  ghost predicate Hidden(input: seq<Entry>, snap: nat, i: nat)
    requires i < |input|
  {
    i > 0 && input[i - 1].key.user == input[i].key.user && input[i - 1].key.sequence <= snap
  }

  /** A deletion marker that nothing further down needs. */
  ghost predicate Obsolete(c: Compaction, snap: nat, e: Entry) {
    e.key.kind.Deletion? && e.key.sequence <= snap && !Covered(c.files, c.level, e.key.user)
  }

  ghost predicate Survives(c: Compaction, input: seq<Entry>, snap: nat, i: nat)
    requires i < |input|
  {
    !Hidden(input, snap, i) && !Obsolete(c, snap, input[i])
  }

  /** The surviving entries among the first `n`. */
  ghost function Kept(c: Compaction, input: seq<Entry>, snap: nat, n: nat): seq<Entry>
    requires n <= |input|
  {
    if n == 0 then [] else
      Kept(c, input, snap, n - 1) + if Survives(c, input, snap, n - 1) then [input[n - 1]] else []
  }

  function Flatten(files: seq<seq<Entry>>): seq<Entry> {
    if files == [] then [] else Flatten(files[..|files| - 1]) + files[|files| - 1]
  }

  // ----- where the outputs are cut -----

  /** Neither size test closes the file behind entry `i` or in front of a later one before `h`. */
  ghost predicate Quiet(stopBefore: seq<bool>, full: seq<bool>, i: nat, h: nat)
    requires i < |full| && h <= |stopBefore|
  {
    !full[i] && forall m :: i < m < h ==> !stopBefore[m]
  }

  /** One output file: the entries at these places of the input, and it stayed open from each to
      the next. */
  ghost predicate OneFile(input: seq<Entry>, stopBefore: seq<bool>, full: seq<bool>, output: seq<Entry>, at: seq<nat>)
    requires |stopBefore| == |full| == |input|
  {
    && |at| == |output| && at != []
    && (forall k :: 0 <= k < |at| ==> at[k] < |input| && output[k] == input[at[k]])
    && forall k :: 0 < k < |at| ==> at[k - 1] < at[k] && Quiet(stopBefore, full, at[k - 1], at[k] + 1)
  }

  /** Output files, each closed by a test before the next began. */
  ghost predicate SplitAt(input: seq<Entry>, stopBefore: seq<bool>, full: seq<bool>, outputs: seq<seq<Entry>>, places: seq<seq<nat>>)
    requires |stopBefore| == |full| == |input|
  {
    && |places| == |outputs|
    && (forall f :: 0 <= f < |places| ==> OneFile(input, stopBefore, full, outputs[f], places[f]))
    && forall f :: 0 < f < |places| ==> Follows(stopBefore, full, places[f - 1], places[f])
  }

  /** A test closed one file after its last entry and before the other's first. */
  ghost predicate Follows(stopBefore: seq<bool>, full: seq<bool>, a: seq<nat>, b: seq<nat>)
    requires |stopBefore| == |full|
  {
    a != [] && b != [] && Last(a) < b[0] < |full| && !Quiet(stopBefore, full, Last(a), b[0] + 1)
  }

  function Last(at: seq<nat>): nat
    requires at != []
  {
    at[|at| - 1]
  }

  function WithOpen(outputs: seq<seq<Entry>>, builder: seq<Entry>): seq<seq<Entry>> {
    if builder == [] then outputs else outputs + [builder]
  }

  /** Before entry `i`: a file is open exactly if no test up to `h` has closed it. */
  ghost predicate Splitting(input: seq<Entry>, stopBefore: seq<bool>, full: seq<bool>, outputs: seq<seq<Entry>>, builder: seq<Entry>,
                            places: seq<seq<nat>>, i: nat, h: nat)
    requires |stopBefore| == |full| == |input| && i <= h <= |input|
  {
    && SplitAt(input, stopBefore, full, WithOpen(outputs, builder), places)
    && (places == [] ==> builder == [])
    && (places != [] ==> places[|places| - 1] != [] && Last(places[|places| - 1]) < i
                         && (builder != [] <==> Quiet(stopBefore, full, Last(places[|places| - 1]), h)))
  }

  lemma StopTest(input: seq<Entry>, stopBefore: seq<bool>, full: seq<bool>, outputs: seq<seq<Entry>>, builder: seq<Entry>, places: seq<seq<nat>>, i: nat)
    requires |stopBefore| == |full| == |input| && i < |input| && Splitting(input, stopBefore, full, outputs, builder, places, i, i)
    ensures
      if stopBefore[i] && builder != [] then Splitting(input, stopBefore, full, outputs + [builder], [], places, i, i + 1)
      else Splitting(input, stopBefore, full, outputs, builder, places, i, i + 1)
  {
  }

  lemma Passes(input: seq<Entry>, stopBefore: seq<bool>, full: seq<bool>, outputs: seq<seq<Entry>>, builder: seq<Entry>, places: seq<seq<nat>>, i: nat)
    requires |stopBefore| == |full| == |input| && i < |input| && Splitting(input, stopBefore, full, outputs, builder, places, i, i + 1)
    ensures Splitting(input, stopBefore, full, outputs, builder, places, i + 1, i + 1)
  {
  }

  lemma OneMoreHere(input: seq<Entry>, stopBefore: seq<bool>, full: seq<bool>, output: seq<Entry>, at: seq<nat>, i: nat)
    requires |stopBefore| == |full| == |input| && i < |input| && OneFile(input, stopBefore, full, output, at)
    requires Last(at) < i && Quiet(stopBefore, full, Last(at), i + 1)
    ensures OneFile(input, stopBefore, full, output + [input[i]], at + [i])
  {
    hide Quiet;
  }

  /** Entry `i` opens a file ... */
  lemma PlacedNew(input: seq<Entry>, stopBefore: seq<bool>, full: seq<bool>, outputs: seq<seq<Entry>>, places: seq<seq<nat>>, i: nat)
    requires |stopBefore| == |full| == |input| && i < |input| && SplitAt(input, stopBefore, full, outputs, places)
    requires places != [] ==>
      places[|places| - 1] != [] && Last(places[|places| - 1]) < i && !Quiet(stopBefore, full, Last(places[|places| - 1]), i + 1)
    ensures SplitAt(input, stopBefore, full, outputs + [[input[i]]], places + [[i]])
  {
    hide Quiet, OneFile;
    assert OneFile(input, stopBefore, full, [input[i]], [i]) by { StartsFile(input, stopBefore, full, i); }
    var now, next := outputs + [[input[i]]], places + [[i]];
    forall f | 0 <= f < |next| ensures OneFile(input, stopBefore, full, now[f], next[f]) {
      assert f < |places| ==> OneFile(input, stopBefore, full, outputs[f], places[f]);
    }
    forall f | 0 < f < |next| ensures Follows(stopBefore, full, next[f - 1], next[f]) {
      assert f < |places| ==> Follows(stopBefore, full, places[f - 1], places[f]);
    }
  }

  lemma StartsFile(input: seq<Entry>, stopBefore: seq<bool>, full: seq<bool>, i: nat)
    requires |stopBefore| == |full| == |input| && i < |input|
    ensures OneFile(input, stopBefore, full, [input[i]], [i])
  {
  }

  /** ... or goes to the one that is open. */
  lemma PlacedOpen(input: seq<Entry>, stopBefore: seq<bool>, full: seq<bool>, outputs: seq<seq<Entry>>, builder: seq<Entry>, places: seq<seq<nat>>, i: nat)
    requires |stopBefore| == |full| == |input| && i < |input| && SplitAt(input, stopBefore, full, outputs + [builder], places)
    requires places != [] && places[|places| - 1] != [] && Last(places[|places| - 1]) < i && Quiet(stopBefore, full, Last(places[|places| - 1]), i + 1)
    ensures SplitAt(input, stopBefore, full, outputs + [builder + [input[i]]], places[..|places| - 1] + [places[|places| - 1] + [i]])
  {
    hide Quiet, OneFile;
    var n := |places| - 1;
    var was, now, next := outputs + [builder], outputs + [builder + [input[i]]], places[..n] + [places[n] + [i]];
    assert OneFile(input, stopBefore, full, was[n], places[n]);
    OneMoreHere(input, stopBefore, full, builder, places[n], i);
    forall f | 0 <= f < |next| ensures OneFile(input, stopBefore, full, now[f], next[f]) {
      assert f < n ==> OneFile(input, stopBefore, full, was[f], places[f]);
    }
    forall f | 0 < f < |next| ensures Follows(stopBefore, full, next[f - 1], next[f]) {
      assert Follows(stopBefore, full, places[f - 1], places[f]);
    }
  }

  lemma Placed(input: seq<Entry>, stopBefore: seq<bool>, full: seq<bool>, outputs: seq<seq<Entry>>, builder: seq<Entry>, places: seq<seq<nat>>, i: nat)
    returns (next: seq<seq<nat>>)
    requires |stopBefore| == |full| == |input| && i < |input| && Splitting(input, stopBefore, full, outputs, builder, places, i, i + 1)
    ensures
      if full[i] then Splitting(input, stopBefore, full, outputs + [builder + [input[i]]], [], next, i + 1, i + 1)
      else Splitting(input, stopBefore, full, outputs, builder + [input[i]], next, i + 1, i + 1)
  {
    hide SplitAt, OneFile;
    if builder == [] {
      PlacedNew(input, stopBefore, full, outputs, places, i);
      next := places + [[i]];
      assert [] + [input[i]] == [input[i]];
    } else {
      PlacedOpen(input, stopBefore, full, outputs, builder, places, i);
      next := places[..|places| - 1] + [places[|places| - 1] + [i]];
    }
    assert Last(next[|next| - 1]) == i;
  }

  /** The compaction loop. `stopBefore` and `full` are the size tests that close the
      current output file before and after an entry; the outputs hold the surviving entries in
      order and are cut where the tests say so and nowhere else. */
  method DoCompactionWork(c: Compaction, input: seq<Entry>, smallestSnapshot: nat, stopBefore: seq<bool>, full: seq<bool>)
    returns (outputs: seq<seq<Entry>>, ghost places: seq<seq<nat>>)
    requires c.Valid() && forall k :: c.Passed(k)
    requires Sorted(input) && |stopBefore| == |full| == |input|
    requires smallestSnapshot < MAX_SEQUENCE
    modifies c.levelPtrs
    ensures Flatten(outputs) == Kept(c, input, smallestSnapshot, |input|)
    ensures forall o :: o in outputs ==> o != []
    ensures SplitAt(input, stopBefore, full, outputs, places)
  {
    hide Flatten, Sorted, SortedLevel, Survives, Covered, Splitting, SplitAt, Quiet, OneFile, Follows, Kept;
    outputs, places := [], [];
    NothingPlaced(input, stopBefore, full);
    NoOutputs(c, input, smallestSnapshot);
    var builder: seq<Entry>, open := [], false;
    var hasCurrent, current, last := false, 0.0, MAX_SEQUENCE;
    var i := 0;
    while i < |input|
      invariant 0 <= i <= |input|
      invariant c.Valid() && (i < |input| ==> c.Passed(input[i].key.user))
      invariant hasCurrent == (i > 0)
      invariant i > 0 ==> current == input[i - 1].key.user && last == input[i - 1].key.sequence
      invariant open <==> builder != []
      invariant Flatten(outputs) + builder == Kept(c, input, smallestSnapshot, i)
      invariant Splitting(input, stopBefore, full, outputs, builder, places, i, i)
    {
      var e := input[i];
      StopTest(input, stopBefore, full, outputs, builder, places, i);
      if stopBefore[i] && open {
        CloseOutput(outputs, builder);
        outputs, builder, open := outputs + [builder], [], false;
      }
      var drop := false;
      if !hasCurrent || e.key.user != current {
        current, hasCurrent := e.key.user, true;
        last := MAX_SEQUENCE;
      }
      if last <= smallestSnapshot {
        drop := true;
      } else if e.key.kind.Deletion? && e.key.sequence <= smallestSnapshot {
        drop := c.IsBaseLevelForKey(e.key.user);
      }
      SurvivesIs(c, input, smallestSnapshot, i);
      KeptStep(c, input, smallestSnapshot, i);
      last := e.key.sequence;
      if drop {
        Passes(input, stopBefore, full, outputs, builder, places, i);
      } else {
        places := Placed(input, stopBefore, full, outputs, builder, places, i);
        builder, open := builder + [e], true;
        if full[i] {
          CloseOutput(outputs, builder);
          outputs, builder, open := outputs + [builder], [], false;
        }
      }
      NextUserKey(input, i);
      i := i + 1;
    }
    AllPlaced(input, stopBefore, full, outputs, builder, places);
    if open {
      CloseOutput(outputs, builder);
      outputs := outputs + [builder];
    }
  }

  lemma NothingPlaced(input: seq<Entry>, stopBefore: seq<bool>, full: seq<bool>)
    requires |stopBefore| == |full| == |input|
    ensures Splitting(input, stopBefore, full, [], [], [], 0, 0)
  {
  }

  lemma AllPlaced(input: seq<Entry>, stopBefore: seq<bool>, full: seq<bool>, outputs: seq<seq<Entry>>, builder: seq<Entry>, places: seq<seq<nat>>)
    requires |stopBefore| == |full| == |input| && Splitting(input, stopBefore, full, outputs, builder, places, |input|, |input|)
    ensures SplitAt(input, stopBefore, full, WithOpen(outputs, builder), places)
    ensures forall o :: o in WithOpen(outputs, builder) ==> o != []
  {
    var outs := WithOpen(outputs, builder);
    assert forall f :: 0 <= f < |places| ==> OneFile(input, stopBefore, full, outs[f], places[f]);
  }

  lemma NoOutputs(c: Compaction, input: seq<Entry>, snap: nat)
    ensures Flatten([]) == [] == Kept(c, input, snap, 0)
  {
  }

  lemma KeptStep(c: Compaction, input: seq<Entry>, snap: nat, i: nat)
    requires i < |input|
    ensures Kept(c, input, snap, i + 1) == if Survives(c, input, snap, i) then Kept(c, input, snap, i) + [input[i]] else Kept(c, input, snap, i)
  {
  }

  lemma CloseOutput(outputs: seq<seq<Entry>>, builder: seq<Entry>)
    ensures Flatten(outputs + [builder]) == Flatten(outputs) + builder
  {
    assert (outputs + [builder])[..|outputs|] == outputs;
  }

  /** The loop's test, in terms of the entry before. */
  lemma SurvivesIs(c: Compaction, input: seq<Entry>, snap: nat, i: nat)
    requires i < |input|
    ensures Survives(c, input, snap, i) <==>
            !(i > 0 && input[i - 1].key.user == input[i].key.user && input[i - 1].key.sequence <= snap)
            && !(input[i].key.kind.Deletion? && input[i].key.sequence <= snap && !Covered(c.files, c.level, input[i].key.user))
  {
  }

  lemma NextUserKey(input: seq<Entry>, i: nat)
    requires Sorted(input) && i < |input|
    ensures i + 1 < |input| ==> input[i].key.user <= input[i + 1].key.user
  {
    assert i + 1 < |input| ==> Less(input[i].key, input[i + 1].key);
  }
}
