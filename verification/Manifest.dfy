/** Versions and the edits between them: when replaying a manifest through one builder gives the
    version that applying its edits one at a time gave. */
module Manifest {
  import opened Store

  /** kNumLevels */
  const LEVELS: nat := 7

  type Version = v: seq<seq<File>> | |v| == LEVELS witness seq(LEVELS, _ => [])

  /** A version edit; a level is paired with a file number or a file. */
  datatype Edit = Edit(deleted: seq<(nat, nat)>, added: seq<(nat, File)>)

  /** BySmallestKey: smallest key, then file number. */
  predicate Before(f: File, g: File) {
    Less(f.smallest, g.smallest) || (f.smallest == g.smallest && f.number < g.number)
  }

  predicate SameKey(f: File, g: File) {
    f.smallest == g.smallest && f.number == g.number
  }

  lemma BeforeIsTotal(f: File, g: File)
    ensures Before(f, g) || SameKey(f, g) || Before(g, f)
    ensures !(Before(f, g) && Before(g, f)) && (SameKey(f, g) ==> !Before(f, g))
  {
  }

  lemma BeforeIsTransitive(f: File, g: File, h: File)
    ensures Before(f, g) && Before(g, h) ==> Before(f, h)
    ensures Before(f, g) && SameKey(g, h) ==> Before(f, h)
    ensures SameKey(f, g) && Before(g, h) ==> Before(f, h)
  {
  }

  ghost predicate Ordered(fs: seq<File>) {
    forall i, j :: 0 <= i < j < |fs| ==> Before(fs[i], fs[j])
  }

  /** In order, with equals allowed. */
  ghost predicate Arranged(fs: seq<File>) {
    forall i, j :: 0 <= i < j < |fs| ==> !Before(fs[j], fs[i])
  }

  lemma OrderedIsArranged(fs: seq<File>)
    requires Ordered(fs)
    ensures Arranged(fs)
  {
    forall i, j | 0 <= i < j < |fs| ensures !Before(fs[j], fs[i]) {
      BeforeIsTotal(fs[i], fs[j]);
    }
  }

  ghost function Files(fs: seq<File>): set<File> {
    set f | f in fs
  }

  lemma NoFiles(a: seq<File>)
    ensures Files(a) == {} <==> a == []
  {
    if a != [] {
      assert a[0] in Files(a);
    }
  }

  /** The order leaves no freedom in how a set of files is arranged. */
  lemma {:induction false} OrderedIsUnique(a: seq<File>, b: seq<File>)
    requires Ordered(a) && Ordered(b) && Files(a) == Files(b)
    ensures a == b
  {
    NoFiles(a);
    NoFiles(b);
    if a != [] {
      assert a[0] in Files(a) && a[0] in b;
      assert b[0] in Files(b) && b[0] in a;
      var i :| 0 <= i < |b| && b[i] == a[0];
      var j :| 0 <= j < |a| && a[j] == b[0];
      assert a[0] == b[0] by {
        BeforeIsTotal(a[0], b[0]);
      }
      TailFiles(a);
      TailFiles(b);
      OrderedIsUnique(a[1..], b[1..]);
      assert a == [a[0]] + a[1..] && b == [b[0]] + b[1..];
    }
  }

  lemma TailFiles(a: seq<File>)
    requires Ordered(a) && a != []
    ensures Ordered(a[1..]) && Files(a[1..]) == Files(a) - {a[0]}
  {
    forall f ensures f in a[1..] <==> f in a && f != a[0] {
      if f in a && f != a[0] {
        var i :| 0 <= i < |a| && a[i] == f;
        assert a[1..][i - 1] == f;
      }
      if f in a[1..] {
        var i :| 0 <= i < |a| - 1 && a[1..][i] == f;
        BeforeIsTotal(a[0], a[i + 1]);
      }
    }
  }

  // ----- edits, level by level -----

  ghost function DeletedAt(e: Edit, level: nat): set<nat> {
    set d | d in e.deleted && d.0 == level :: d.1
  }

  ghost function AddedAt(e: Edit, level: nat): set<File> {
    set a | a in e.added && a.0 == level :: a.1
  }

  ghost function Numbers(fs: set<File>): set<nat> {
    set f | f in fs :: f.number
  }

  /** The numbers a builder ends up treating as deleted: adding a file takes its number out. */
  ghost function Masked(edits: seq<Edit>, level: nat): set<nat> {
    if edits == [] then {}
    else
      var last := edits[|edits| - 1];
      Masked(edits[..|edits| - 1], level) + DeletedAt(last, level) - Numbers(AddedAt(last, level))
  }

  // ----- what a builder holds and saves -----

  /** Insertion into an ordered set of files: one with the same key stays as it is. */
  function InsertedFile(fs: seq<File>, f: File): seq<File> {
    if fs == [] then [f]
    else if Before(fs[0], f) then [fs[0]] + InsertedFile(fs[1..], f)
    else if SameKey(fs[0], f) then fs
    else [f] + fs
  }

  function AddAll(fs: seq<File>, adds: seq<File>): seq<File> {
    if adds == [] then fs else InsertedFile(AddAll(fs, adds[..|adds| - 1]), adds[|adds| - 1])
  }

  function AddsAt(adds: seq<(nat, File)>, level: nat): seq<File> {
    if adds == [] then []
    else
      var (l, f) := adds[|adds| - 1];
      AddsAt(adds[..|adds| - 1], level) + if l == level then [f] else []
  }

  /** The added files of a builder. */
  function Held(edits: seq<Edit>, level: nat): seq<File> {
    if edits == [] then []
    else AddAll(Held(edits[..|edits| - 1], level), AddsAt(edits[|edits| - 1].added, level))
  }

  function Unless(deleted: set<nat>, f: File): seq<File> {
    if f.number in deleted then [] else [f]
  }

  /** Base and added files in order, the base file first among equals, without the deleted. */
  function Merged(base: seq<File>, added: seq<File>, deleted: set<nat>): seq<File>
    decreases |base| + |added|
  {
    if base != [] && (added == [] || !Before(added[0], base[0])) then
      Unless(deleted, base[0]) + Merged(base[1..], added, deleted)
    else if added != [] then
      Unless(deleted, added[0]) + Merged(base, added[1..], deleted)
    else []
  }

  /** A level as one builder saves it after all the edits ... */
  ghost function Replay(base: seq<File>, edits: seq<Edit>, level: nat): seq<File> {
    Merged(base, Held(edits, level), Masked(edits, level))
  }

  /** ... and as it comes out when it is saved after each of them. */
  ghost function Live(base: seq<File>, edits: seq<Edit>, level: nat): seq<File> {
    if edits == [] then base else Replay(Live(base, edits[..|edits| - 1], level), [edits[|edits| - 1]], level)
  }

  // ----- files with one key -----

  /** The files with the key of `k`, as they come. */
  ghost function Class(fs: seq<File>, k: File): seq<File> {
    if fs == [] then [] else (if SameKey(fs[0], k) then [fs[0]] else []) + Class(fs[1..], k)
  }

  lemma {:induction false} ClassMembers(fs: seq<File>, k: File)
    ensures forall f :: f in Class(fs, k) <==> f in fs && SameKey(f, k)
  {
    if fs != [] {
      ClassMembers(fs[1..], k);
      assert fs == [fs[0]] + fs[1..];
    }
  }

  lemma NoneInClass(fs: seq<File>, k: File)
    requires forall f :: f in fs ==> !SameKey(f, k)
    ensures Class(fs, k) == []
  {
    ClassMembers(fs, k);
    assert Class(fs, k) != [] ==> Class(fs, k)[0] in Class(fs, k);
  }

  lemma TailArranged(fs: seq<File>)
    requires Arranged(fs) && fs != []
    ensures Arranged(fs[1..]) && forall f :: f in fs[1..] ==> !Before(f, fs[0])
  {
    forall f | f in fs[1..] ensures !Before(f, fs[0]) {
      var i :| 0 <= i < |fs| - 1 && fs[1..][i] == f;
      assert fs[i + 1] == f;
    }
  }

  lemma TailOrdered(fs: seq<File>)
    requires Ordered(fs) && fs != []
    ensures Ordered(fs[1..]) && forall f :: f in fs[1..] ==> Before(fs[0], f)
  {
    forall f | f in fs[1..] ensures Before(fs[0], f) {
      var i :| 0 <= i < |fs| - 1 && fs[1..][i] == f;
      assert fs[i + 1] == f;
    }
  }

  lemma HeadArranged(f: File, fs: seq<File>)
    requires Arranged(fs) && forall g :: g in fs ==> !Before(g, f)
    ensures Arranged([f] + fs)
  {
  }

  lemma HeadOrdered(f: File, fs: seq<File>)
    requires Ordered(fs) && forall g :: g in fs ==> Before(f, g)
    ensures Ordered([f] + fs)
  {
  }

  /** In a set of files a key is alone. */
  lemma {:induction false} ClassIsShort(fs: seq<File>, k: File)
    requires Ordered(fs)
    ensures |Class(fs, k)| <= 1
  {
    if fs != [] {
      TailOrdered(fs);
      ClassIsShort(fs[1..], k);
      if SameKey(fs[0], k) {
        forall f | f in fs[1..] ensures !SameKey(f, k) {
          BeforeIsTotal(fs[0], f);
        }
        NoneInClass(fs[1..], k);
      }
    }
  }

  /** An arranged list is told by its classes. */
  lemma {:induction false} SameClasses(a: seq<File>, b: seq<File>)
    requires Arranged(a) && Arranged(b) && forall k :: Class(a, k) == Class(b, k)
    ensures a == b
    decreases |a|
  {
    if a == [] || b == [] {
      OneIsEmpty(a, b);
    } else {
      SameHead(a, b);
      TailArranged(a);
      TailArranged(b);
      forall k ensures Class(a[1..], k) == Class(b[1..], k) {
        assert Class(a, k) == Class(b, k);
        SameRest(if SameKey(a[0], k) then [a[0]] else [], Class(a[1..], k), Class(b[1..], k));
      }
      SameClasses(a[1..], b[1..]);
      assert a == [a[0]] + a[1..] && b == [b[0]] + b[1..];
    }
  }

  lemma SameRest(front: seq<File>, a: seq<File>, b: seq<File>)
    requires front + a == front + b
    ensures a == b
  {
    assert (front + a)[|front|..] == a && (front + b)[|front|..] == b;
  }

  lemma HeadHasClass(fs: seq<File>)
    requires fs != []
    ensures Class(fs, fs[0]) != []
  {
    BeforeIsTotal(fs[0], fs[0]);
  }

  lemma OneIsEmpty(a: seq<File>, b: seq<File>)
    requires (a == [] || b == []) && forall k :: Class(a, k) == Class(b, k)
    ensures a == b
  {
    if a != [] {
      HeadHasClass(a);
    }
    if b != [] {
      HeadHasClass(b);
    }
  }

  lemma NotBeforeHead(fs: seq<File>, f: File)
    requires Arranged(fs) && f in fs
    ensures !Before(f, fs[0])
  {
    BeforeIsTotal(f, f);
    if f != fs[0] {
      TailArranged(fs);
      assert fs == [fs[0]] + fs[1..];
    }
  }

  lemma SameHead(a: seq<File>, b: seq<File>)
    requires a != [] && b != [] && Arranged(a) && Arranged(b) && forall k :: Class(a, k) == Class(b, k)
    ensures a[0] == b[0]
  {
    ClassMembers(a, a[0]);
    ClassMembers(b, a[0]);
    ClassMembers(a, b[0]);
    ClassMembers(b, b[0]);
    assert a[0] in Class(a, a[0]) && b[0] in Class(b, b[0]);
    assert Class(a, a[0]) == Class(b, a[0]) && Class(a, b[0]) == Class(b, b[0]);
    NotBeforeHead(b, a[0]);
    NotBeforeHead(a, b[0]);
    BeforeIsTotal(a[0], b[0]);
    assert Class(a, a[0])[0] == a[0] && Class(b, a[0])[0] == b[0];
  }

  // ----- what the classes of these lists are -----

  lemma {:induction false} InsertedClass(fs: seq<File>, f: File, k: File)
    requires Ordered(fs)
    ensures Ordered(InsertedFile(fs, f)) && (forall g :: g in InsertedFile(fs, f) ==> g in fs || g == f)
    ensures Class(InsertedFile(fs, f), k) == if SameKey(f, k) && Class(fs, k) == [] then [f] else Class(fs, k)
  {
    hide Before;
    if fs == [] {
      assert Class([], k) == [];
    } else if Before(fs[0], f) {
      TailOrdered(fs);
      InsertedClass(fs[1..], f, k);
      BeforeIsTotal(fs[0], f);
      HeadOrdered(fs[0], InsertedFile(fs[1..], f));
      ClassAhead(fs[0], InsertedFile(fs[1..], f), k);
    } else if !SameKey(fs[0], f) {
      OrderedIsArranged(fs);
      BeforeIsTotal(fs[0], f);
      BeforeAllOf(fs, f);
      HeadOrdered(f, fs);
      ClassAhead(f, fs, k);
      if SameKey(f, k) {
        NoneInClass(fs, k);
      }
    }
  }

  lemma ClassAhead(f: File, fs: seq<File>, k: File)
    ensures Class([f] + fs, k) == (if SameKey(f, k) then [f] else []) + Class(fs, k)
  {
    assert ([f] + fs)[1..] == fs;
  }

  /** What comes before the first of an ordered list comes before all of it. */
  lemma BeforeAllOf(fs: seq<File>, f: File)
    requires Arranged(fs) && fs != [] && Before(f, fs[0])
    ensures forall g :: g in fs ==> Before(f, g) && !SameKey(g, f)
  {
    forall g | g in fs ensures Before(f, g) && !SameKey(g, f) {
      NotBeforeHead(fs, g);
      BeforeIsTotal(g, fs[0]);
      BeforeIsTransitive(f, fs[0], g);
      BeforeIsTotal(f, g);
    }
  }

  /** An added file takes the place of its key only if nothing has it. */
  lemma {:induction false} AddAllClass(fs: seq<File>, adds: seq<File>, k: File)
    requires Ordered(fs)
    ensures Ordered(AddAll(fs, adds)) && Ordered(AddAll([], adds))
    ensures Class(AddAll(fs, adds), k) == if Class(fs, k) != [] then Class(fs, k) else Class(AddAll([], adds), k)
  {
    if adds != [] {
      var front, f := adds[..|adds| - 1], adds[|adds| - 1];
      AddAllClass(fs, front, k);
      InsertedClass(AddAll(fs, front), f, k);
      InsertedClass(AddAll([], front), f, k);
    }
  }

  lemma {:induction false} MergedMembers(base: seq<File>, added: seq<File>, deleted: set<nat>)
    ensures forall f :: f in Merged(base, added, deleted) <==> (f in base || f in added) && f.number !in deleted
    decreases |base| + |added|
  {
    if base != [] && (added == [] || !Before(added[0], base[0])) {
      MergedMembers(base[1..], added, deleted);
      assert base == [base[0]] + base[1..];
    } else if added != [] {
      MergedMembers(base, added[1..], deleted);
      assert added == [added[0]] + added[1..];
    }
  }

  lemma {:induction false} MergedClass(base: seq<File>, added: seq<File>, deleted: set<nat>, k: File)
    requires Arranged(base) && Ordered(added)
    ensures Arranged(Merged(base, added, deleted))
    ensures Class(Merged(base, added, deleted), k) == if k.number in deleted then [] else Class(base, k) + Class(added, k)
    decreases |base| + |added|
  {
    hide Class, Arranged, Ordered, Unless, SameKey;
    if base != [] && (added == [] || !Before(added[0], base[0])) {
      TailArranged(base);
      MergedClass(base[1..], added, deleted, k);
      BaseFirst(base, added, deleted, k);
    } else if added != [] {
      TailOrdered(added);
      MergedClass(base, added[1..], deleted, k);
      AddedFirst(base, added, deleted, k);
    } else {
      NothingMerged(k);
    }
  }

  lemma NothingMerged(k: File)
    ensures Arranged([]) && Class([], k) == [] + []
  {
  }

  lemma SplitClass(fs: seq<File>, k: File)
    requires fs != []
    ensures Class(fs, k) == (if SameKey(fs[0], k) then [fs[0]] else []) + Class(fs[1..], k)
  {
  }

  lemma BaseFirst(base: seq<File>, added: seq<File>, deleted: set<nat>, k: File)
    requires Arranged(base) && Ordered(added) && base != [] && (added == [] || !Before(added[0], base[0]))
    requires Arranged(Merged(base[1..], added, deleted))
    requires Class(Merged(base[1..], added, deleted), k) == if k.number in deleted then [] else Class(base[1..], k) + Class(added, k)
    ensures Arranged(Unless(deleted, base[0]) + Merged(base[1..], added, deleted))
    ensures Class(Unless(deleted, base[0]) + Merged(base[1..], added, deleted), k)
            == if k.number in deleted then [] else Class(base, k) + Class(added, k)
  {
    hide Class, Arranged, Ordered, Unless, Before, Merged;
    TailArranged(base);
    MergedMembers(base[1..], added, deleted);
    forall f | f in added ensures !Before(f, base[0]) {
      NotBeforeOrdered(added, base[0], f);
    }
    MergedHead(base[0], Merged(base[1..], added, deleted), deleted, k);
    SplitClass(base, k);
  }

  lemma AddedFirst(base: seq<File>, added: seq<File>, deleted: set<nat>, k: File)
    requires Arranged(base) && Ordered(added) && added != [] && (base == [] || Before(added[0], base[0]))
    requires Arranged(Merged(base, added[1..], deleted))
    requires Class(Merged(base, added[1..], deleted), k) == if k.number in deleted then [] else Class(base, k) + Class(added[1..], k)
    ensures Arranged(Unless(deleted, added[0]) + Merged(base, added[1..], deleted))
    ensures Class(Unless(deleted, added[0]) + Merged(base, added[1..], deleted), k)
            == if k.number in deleted then [] else Class(base, k) + Class(added, k)
  {
    hide Class, Arranged, Ordered, Unless, Before, Merged;
    TailOrdered(added);
    MergedMembers(base, added[1..], deleted);
    if base != [] {
      BeforeAllOf(base, added[0]);
    }
    forall f | f in base || f in added[1..] ensures !Before(f, added[0]) {
      BeforeIsTotal(f, added[0]);
    }
    MergedHead(added[0], Merged(base, added[1..], deleted), deleted, k);
    SplitClass(added, k);
    if SameKey(added[0], k) {
      forall f | f in base ensures !SameKey(f, k) {
        assert !SameKey(f, added[0]);
      }
      NoneInClass(base, k);
    }
  }

  lemma NotBeforeOrdered(added: seq<File>, b: File, f: File)
    requires Ordered(added) && f in added && !Before(added[0], b)
    ensures !Before(f, b)
  {
    if f != added[0] {
      TailOrdered(added);
      assert added == [added[0]] + added[1..];
      BeforeIsTransitive(added[0], f, b);
    }
  }

  lemma MergedHead(f: File, rest: seq<File>, deleted: set<nat>, k: File)
    requires Arranged(rest) && forall g :: g in rest ==> !Before(g, f)
    ensures Arranged(Unless(deleted, f) + rest)
    ensures Class(Unless(deleted, f) + rest, k) == (if SameKey(f, k) && f.number !in deleted then [f] else []) + Class(rest, k)
  {
    if f.number in deleted {
      assert Unless(deleted, f) + rest == rest;
    } else {
      HeadArranged(f, rest);
      ClassAhead(f, rest, k);
    }
  }

  // ----- one builder against one after the other -----

  lemma {:induction false} AddAllMembers(fs: seq<File>, adds: seq<File>)
    requires Ordered(fs)
    ensures Ordered(AddAll(fs, adds)) && forall f :: f in AddAll(fs, adds) ==> f in fs || f in adds
  {
    if adds != [] {
      var n := |adds| - 1;
      AddAllMembers(fs, adds[..n]);
      InsertedClass(AddAll(fs, adds[..n]), adds[n], adds[n]);
    }
  }

  lemma {:induction false} HeldOrdered(edits: seq<Edit>, level: nat)
    ensures Ordered(Held(edits, level))
  {
    if edits != [] {
      HeldOrdered(edits[..|edits| - 1], level);
      AddAllMembers(Held(edits[..|edits| - 1], level), AddsAt(edits[|edits| - 1].added, level));
    }
  }

  lemma {:induction false} AddsAtMembers(adds: seq<(nat, File)>, level: nat)
    ensures forall f :: f in AddsAt(adds, level) <==> (level, f) in adds
  {
    if adds != [] {
      var n := |adds| - 1;
      AddsAtMembers(adds[..n], level);
      var (l, g) := adds[n];
      assert AddsAt(adds, level) == AddsAt(adds[..n], level) + if l == level then [g] else [];
      forall f ensures (level, f) in adds <==> (level, f) in adds[..n] || (l == level && f == g) {
        assert adds == adds[..n] + [adds[n]];
      }
    }
  }

  lemma AddedFiles(e: Edit, level: nat)
    ensures Files(AddsAt(e.added, level)) == AddedAt(e, level)
  {
    AddsAtMembers(e.added, level);
    forall f ensures f in AddedAt(e, level) <==> (level, f) in e.added {
    }
  }

  /** What one edit alone gives a builder. */
  lemma HeldOne(e: Edit, level: nat)
    ensures Held([e], level) == AddAll([], AddsAt(e.added, level))
    ensures Masked([e], level) == DeletedAt(e, level) - Numbers(AddedAt(e, level))
    ensures forall f :: f in Held([e], level) ==> f in AddedAt(e, level)
  {
    assert [e][..0] == [] && Held([], level) == [] && Masked([], level) == {};
    AddAllMembers([], AddsAt(e.added, level));
    AddedFiles(e, level);
    assert forall f :: f in AddsAt(e.added, level) ==> f in Files(AddsAt(e.added, level));
  }

  /** The last edit makes the two differ in the files with the key of `k`. */
  ghost predicate DivergesAt(base: seq<File>, edits: seq<Edit>, level: nat, k: File)
    requires edits != []
  {
    var before, last := edits[..|edits| - 1], edits[|edits| - 1];
    var held, adds := Class(Held(before, level), k), Class(Held([last], level), k);
    && k.number in Numbers(AddedAt(last, level))
    && if k.number in Masked(before, level) then Class(base, k) != [] || (held != [] && adds != held)
       else held != [] && adds != []
  }

  /** Classes of the four lists. */
  lemma StepClasses(base: seq<File>, edits: seq<Edit>, level: nat, k: File)
    requires edits != [] && Arranged(base)
    ensures
      var before, last := edits[..|edits| - 1], edits[|edits| - 1];
      var held, adds := Class(Held(before, level), k), Class(Held([last], level), k);
      && |held| <= 1 && |adds| <= 1 && (adds != [] ==> k.number in Numbers(AddedAt(last, level)))
      && Arranged(Replay(base, edits, level)) && Arranged(Replay(base, before, level)) && Arranged(Replay(Replay(base, before, level), [last], level))
      && Class(Replay(base, edits, level), k)
         == (if k.number in Masked(edits, level) then [] else Class(base, k) + if held != [] then held else adds)
      && Class(Replay(base, before, level), k) == (if k.number in Masked(before, level) then [] else Class(base, k) + held)
      && Class(Replay(Replay(base, before, level), [last], level), k)
         == (if k.number in Masked([last], level) then [] else Class(Replay(base, before, level), k) + adds)
  {
    hide Class, Arranged, Ordered, Masked, Merged, AddAll;
    var before, last := edits[..|edits| - 1], edits[|edits| - 1];
    HeldOrdered(before, level);
    HeldOrdered([last], level);
    HeldOrdered(edits, level);
    HeldOne(last, level);
    ClassIsShort(Held(before, level), k);
    ClassIsShort(Held([last], level), k);
    ClassMembers(Held([last], level), k);
    if Class(Held([last], level), k) != [] {
      var f := Class(Held([last], level), k)[0];
      assert f in Class(Held([last], level), k);
      assert f in AddedAt(last, level) && f.number == k.number;
    }
    AddAllClass(Held(before, level), AddsAt(last.added, level), k);
    MergedClass(base, Held(edits, level), Masked(edits, level), k);
    MergedClass(base, Held(before, level), Masked(before, level), k);
    MergedClass(Replay(base, before, level), Held([last], level), Masked([last], level), k);
  }

  lemma StepAt(base: seq<File>, edits: seq<Edit>, level: nat, k: File)
    requires edits != [] && Arranged(base)
    ensures
      var before, last := edits[..|edits| - 1], edits[|edits| - 1];
      Class(Replay(base, edits, level), k) == Class(Replay(Replay(base, before, level), [last], level), k)
      <==> !DivergesAt(base, edits, level, k)
  {
    hide Class, Arranged, Replay, Held;
    var before, last := edits[..|edits| - 1], edits[|edits| - 1];
    StepClasses(base, edits, level, k);
    HeldOne(last, level);
    var b, held, adds := Class(base, k), Class(Held(before, level), k), Class(Held([last], level), k);
    assert Masked(edits, level) == Masked(before, level) + DeletedAt(last, level) - Numbers(AddedAt(last, level));
    assert b + [] == b && [] + adds == adds && |b + held + adds| == |b| + |held| + |adds|;
    assert |b + held| == |b| + |held|;
  }

  lemma ReplayArranged(base: seq<File>, edits: seq<Edit>, level: nat)
    requires Arranged(base)
    ensures Arranged(Replay(base, edits, level))
  {
    HeldOrdered(edits, level);
    var any := InternalKey(0.0, 0, Put);
    MergedClass(base, Held(edits, level), Masked(edits, level), File(0, 0, any, any, []));
  }

  /** Saving once and saving after each edit give the same list after the last edit, exactly if
      no key tells them apart. */
  lemma ReplayStep(base: seq<File>, edits: seq<Edit>, level: nat)
    requires edits != [] && Arranged(base)
    requires Replay(base, edits[..|edits| - 1], level) == Live(base, edits[..|edits| - 1], level)
    ensures Replay(base, edits, level) == Live(base, edits, level) <==> forall k :: !DivergesAt(base, edits, level, k)
  {
    hide DivergesAt, Class, Arranged, Replay, Held;
    var before, last := edits[..|edits| - 1], edits[|edits| - 1];
    var now := Replay(Replay(base, before, level), [last], level);
    assert Live(base, edits, level) == now;
    forall k ensures Class(Replay(base, edits, level), k) == Class(now, k) <==> !DivergesAt(base, edits, level, k) {
      StepAt(base, edits, level, k);
    }
    if forall k :: !DivergesAt(base, edits, level, k) {
      ReplayArranged(base, edits, level);
      ReplayArranged(base, before, level);
      ReplayArranged(Replay(base, before, level), [last], level);
      SameClasses(Replay(base, edits, level), now);
    }
  }

  /** ... in terms of files: the last edit adds the number of a file that is deleted but still
      there for the builder, other than that very file as it was added before; or it adds a
      file whose key an added one has that is not deleted. */
  ghost predicate Diverges(base: seq<File>, edits: seq<Edit>, level: nat)
    requires edits != []
  {
    var before, last := edits[..|edits| - 1], edits[|edits| - 1];
    exists f :: DivergesBy(base, Held(before, level), Held([last], level), Masked(before, level), Numbers(AddedAt(last, level)), f)
  }

  ghost predicate DivergesBy(base: seq<File>, held: seq<File>, adds: seq<File>, deleted: set<nat>, added: set<nat>, f: File) {
    && f.number in added
    && if f.number in deleted then f in base || (f in held && f !in adds)
       else f in held && exists g :: g in adds && SameKey(f, g)
  }

  lemma DivergesIs(base: seq<File>, edits: seq<Edit>, level: nat)
    requires edits != []
    ensures Diverges(base, edits, level) <==> exists k :: DivergesAt(base, edits, level, k)
  {
    hide Class;
    var before, last := edits[..|edits| - 1], edits[|edits| - 1];
    HeldOrdered(before, level);
    HeldOrdered([last], level);
    var held, adds, deleted, added := Held(before, level), Held([last], level), Masked(before, level), Numbers(AddedAt(last, level));
    forall f | DivergesBy(base, held, adds, deleted, added, f) ensures DivergesAt(base, edits, level, f) {
      FileDiverges(base, held, adds, deleted, f);
    }
    forall k | DivergesAt(base, edits, level, k) ensures exists f :: DivergesBy(base, held, adds, deleted, added, f) {
      var f := ClassDiverges(base, held, adds, deleted, k);
      assert DivergesBy(base, held, adds, deleted, added, f);
    }
  }

  lemma FileDiverges(base: seq<File>, held: seq<File>, adds: seq<File>, deleted: set<nat>, f: File)
    requires if f.number in deleted then f in base || (f in held && f !in adds) else f in held && exists g :: g in adds && SameKey(f, g)
    ensures if f.number in deleted then Class(base, f) != [] || (Class(held, f) != [] && Class(adds, f) != Class(held, f))
            else Class(held, f) != [] && Class(adds, f) != []
  {
    ClassMembers(base, f);
    ClassMembers(held, f);
    ClassMembers(adds, f);
    BeforeIsTotal(f, f);
    if f.number in deleted {
      assert f in base ==> f in Class(base, f);
      assert f in held ==> f in Class(held, f);
    } else {
      var g :| g in adds && SameKey(f, g);
      assert f in Class(held, f) && g in Class(adds, f);
    }
  }

  lemma AddedAgain(held: seq<File>, adds: seq<File>, k: File)
    requires Ordered(held) && Ordered(adds)
    ensures Class(held, k) != [] && Class(held, k)[0] in adds ==> Class(adds, k) == Class(held, k)
  {
    hide Class, Ordered, Before, SameKey;
    ClassMembers(held, k);
    ClassMembers(adds, k);
    ClassIsShort(held, k);
    ClassIsShort(adds, k);
    var a, b := Class(held, k), Class(adds, k);
    if a != [] && a[0] in adds {
      assert a[0] in a && a[0] in b;
      assert a == [a[0]] && b == [a[0]];
    }
  }

  lemma ClassDiverges(base: seq<File>, held: seq<File>, adds: seq<File>, deleted: set<nat>, k: File) returns (f: File)
    requires Ordered(held) && Ordered(adds)
    requires if k.number in deleted then Class(base, k) != [] || (Class(held, k) != [] && Class(adds, k) != Class(held, k))
             else Class(held, k) != [] && Class(adds, k) != []
    ensures f.number == k.number
    ensures if f.number in deleted then f in base || (f in held && f !in adds) else f in held && exists g :: g in adds && SameKey(f, g)
  {
    ClassMembers(base, k);
    ClassMembers(held, k);
    ClassMembers(adds, k);
    AddedAgain(held, adds, k);
    if k.number in deleted && Class(base, k) != [] {
      f := Class(base, k)[0];
      assert f in Class(base, k);
    } else {
      f := Class(held, k)[0];
      assert f in Class(held, k);
      if k.number !in deleted {
        var g := Class(adds, k)[0];
        assert g in Class(adds, k);
      }
    }
  }

  /** At every point of the manifest, one builder saves the list that saving after each of the
      edits gave. */
  ghost predicate AlwaysAgree(base: seq<File>, edits: seq<Edit>, level: nat) {
    && Replay(base, edits, level) == Live(base, edits, level)
    && (edits != [] ==> AlwaysAgree(base, edits[..|edits| - 1], level))
  }

  ghost predicate NeverDiverges(base: seq<File>, edits: seq<Edit>, level: nat) {
    edits != [] ==> !Diverges(base, edits, level) && NeverDiverges(base, edits[..|edits| - 1], level)
  }

  lemma {:induction false} NothingToReplay(base: seq<File>, level: nat)
    ensures Replay(base, [], level) == base == Merged(base, [], {})
  {
    if base != [] {
      NothingToReplay(base[1..], level);
      assert base == [base[0]] + base[1..];
    }
  }

  /** ... exactly when no edit makes them diverge. */
  lemma {:induction false} ReplayIsLive(base: seq<File>, edits: seq<Edit>, level: nat)
    requires Arranged(base)
    ensures AlwaysAgree(base, edits, level) <==> NeverDiverges(base, edits, level)
  {
    hide Arranged, Replay, Diverges;
    if edits == [] {
      NothingToReplay(base, level);
    } else {
      ReplayIsLive(base, edits[..|edits| - 1], level);
      if AlwaysAgree(base, edits[..|edits| - 1], level) {
        ReplayStep(base, edits, level);
        DivergesIs(base, edits, level);
      }
    }
  }

  lemma {:induction false} LiveArranged(base: seq<File>, edits: seq<Edit>, level: nat)
    requires Arranged(base)
    ensures Arranged(Live(base, edits, level))
  {
    if edits != [] {
      LiveArranged(base, edits[..|edits| - 1], level);
      ReplayArranged(Live(base, edits[..|edits| - 1], level), [edits[|edits| - 1]], level);
    }
  }

  // ----- manifests on which they differ -----

  lemma HeldAndMasked(e: Edit, f: Edit, level: nat)
    ensures Held([e], level) == AddAll([], AddsAt(e.added, level))
    ensures Masked([e], level) == DeletedAt(e, level) - Numbers(AddedAt(e, level))
    ensures Held([e, f], level) == AddAll(Held([e], level), AddsAt(f.added, level))
    ensures Masked([e, f], level) == Masked([e], level) + DeletedAt(f, level) - Numbers(AddedAt(f, level))
    ensures forall base :: Live(base, [e, f], level) == Replay(Replay(base, [e], level), [f], level)
  {
    assert [e][..0] == [] && [e, f][..1] == [e];
    assert forall base :: Live(base, [e], level) == Replay(Live(base, [], level), [e], level);
  }

  lemma OneAdded(f: File, level: nat)
    ensures AddsAt([(level, f)], level) == [f] && AddAll([], [f]) == [f]
    ensures AddedAt(Edit([], [(level, f)]), level) == {f} && DeletedAt(Edit([], [(level, f)]), level) == {} && Numbers({f}) == {f.number}
  {
    var adds := [(level, f)];
    assert adds[..0] == [] && [f][..0] == [];
    assert Edit([], adds).added[0] == (level, f);
  }

  lemma MergedOne(f: File, deleted: set<nat>)
    ensures Merged([], [f], deleted) == Unless(deleted, f) == Merged([f], [], deleted)
  {
    assert [f][1..] == [] && Merged([], [], deleted) == [];
  }

  lemma MergedTwo(f: File, g: File, deleted: set<nat>)
    ensures Merged([f], [g], deleted)
            == if Before(g, f) then Unless(deleted, g) + Unless(deleted, f) else Unless(deleted, f) + Unless(deleted, g)
  {
    hide Before, Unless;
    MergedOne(f, deleted);
    MergedOne(g, deleted);
    assert [f][1..] == [] == [g][1..] && [f][0] == f && [g][0] == g;
  }

  /** Two files of one key added one after the other, or one file twice: a builder keeps the
      first, saving after each edit keeps both. */
  lemma SharedKeyDiverges(f: File, g: File, level: nat)
    requires SameKey(f, g)
    ensures
      var edits := [Edit([], [(level, f)]), Edit([], [(level, g)])];
      Replay([], edits, level) == [f] && Live([], edits, level) == [f, g] && Diverges([], edits, level)
  {
    hide Merged, Held, Masked, Live, AddAll, AddsAt, AddedAt, DeletedAt, Numbers;
    var a, b := Edit([], [(level, f)]), Edit([], [(level, g)]);
    OneAdded(f, level);
    OneAdded(g, level);
    HeldAndMasked(a, b, level);
    HeldOne(b, level);
    KeepsFirst(f, g);
    MergedOne(f, {});
    MergedTwo(f, g, {});
    BeforeIsTotal(f, g);
    BothEdits(a, b);
    assert Held([a], level) == [f] && Held([b], level) == [g] && Held([a, b], level) == [f];
    assert Masked([a], level) == {} && Masked([b], level) == {} && Masked([a, b], level) == {};
    assert Replay([], [a], level) == [f] && Replay([f], [b], level) == [f, g];
    assert DivergesBy([], [f], [g], {}, {g.number}, f);
  }

  lemma BothEdits(a: Edit, b: Edit)
    ensures var edits := [a, b]; edits[..|edits| - 1] == [a] && edits[|edits| - 1] == b
  {
  }

  lemma KeepsFirst(f: File, g: File)
    ensures AddAll([f], [g]) == InsertedFile([f], g)
    ensures SameKey(f, g) ==> InsertedFile([f], g) == [f]
  {
    assert [g][..0] == [];
    BeforeIsTotal(f, g);
  }

  /** A number that comes back under another file brings the deleted file back with it. */
  lemma ReusedNumberRevives(f: File, g: File, level: nat)
    requires f.number == g.number && f != g
    ensures
      var edits := [Edit([(level, f.number)], []), Edit([], [(level, g)])];
      && Live([f], edits, level) == [g] && Diverges([f], edits, level)
      && Replay([f], edits, level) == if Before(g, f) then [g, f] else [f, g]
  {
    hide Merged, Held, Masked, Live, AddAll, AddsAt, AddedAt, DeletedAt, Numbers;
    var a, b := Edit([(level, f.number)], []), Edit([], [(level, g)]);
    OneAdded(g, level);
    OneDeleted(f.number, level);
    HeldAndMasked(a, b, level);
    HeldOne(b, level);
    MergedOne(f, {f.number});
    MergedOne(g, {});
    MergedTwo(f, g, {});
    BothEdits(a, b);
    assert Held([a], level) == [] && Held([b], level) == [g] && Held([a, b], level) == [g];
    assert Masked([a], level) == {f.number} && Masked([b], level) == {} && Masked([a, b], level) == {};
    assert Replay([f], [a], level) == [] && Replay([], [b], level) == [g];
    assert DivergesBy([f], [], [g], {f.number}, {g.number}, f);
  }

  lemma OneDeleted(n: nat, level: nat)
    ensures
      var e := Edit([(level, n)], []);
      AddedAt(e, level) == {} && DeletedAt(e, level) == {n} && AddsAt(e.added, level) == [] && Numbers({}) == {} && AddAll([], []) == []
  {
    var e := Edit([(level, n)], []);
    assert e.deleted[0] == (level, n);
  }

  // ----- numbers that enter a level once -----

  /** What one edit does to the files of a level: a file it both deletes and adds stays. */
  ghost function Applied(fs: set<File>, e: Edit, level: nat): set<File> {
    set f | f in fs + AddedAt(e, level) && f.number !in DeletedAt(e, level) - Numbers(AddedAt(e, level))
  }

  /** The files of the level after the edits one by one. */
  ghost function LiveFiles(fs: set<File>, edits: seq<Edit>, level: nat): set<File> {
    if edits == [] then fs else Applied(LiveFiles(fs, edits[..|edits| - 1], level), edits[|edits| - 1], level)
  }

  ghost function AllAdded(edits: seq<Edit>, level: nat): set<File> {
    if edits == [] then {} else AllAdded(edits[..|edits| - 1], level) + AddedAt(edits[|edits| - 1], level)
  }

  /** No file number enters a level twice. */
  ghost predicate FreshNumbers(fs: set<File>, edits: seq<Edit>, level: nat) {
    edits != [] ==>
      var before, adds := edits[..|edits| - 1], AddedAt(edits[|edits| - 1], level);
      && FreshNumbers(fs, before, level)
      && (forall f, g :: f in fs + AllAdded(before, level) && g in adds ==> f.number != g.number)
      && (forall f, g :: f in adds && g in adds && f != g ==> f.number != g.number)
  }

  lemma {:induction false} HeldWasAdded(edits: seq<Edit>, level: nat)
    ensures forall f :: f in Held(edits, level) ==> f in AllAdded(edits, level)
  {
    if edits != [] {
      var before, last := edits[..|edits| - 1], edits[|edits| - 1];
      HeldWasAdded(before, level);
      HeldOrdered(before, level);
      AddAllMembers(Held(before, level), AddsAt(last.added, level));
      AddedFiles(last, level);
      assert forall f :: f in AddsAt(last.added, level) ==> f in Files(AddsAt(last.added, level));
    }
  }

  /** The database gives every new file a fresh number, and so no edit makes them diverge. */
  lemma {:induction false} FreshNeverDiverges(base: seq<File>, edits: seq<Edit>, level: nat)
    requires FreshNumbers(Files(base), edits, level)
    ensures NeverDiverges(base, edits, level)
  {
    hide Held;
    if edits != [] {
      var before, last := edits[..|edits| - 1], edits[|edits| - 1];
      FreshNeverDiverges(base, before, level);
      HeldWasAdded(before, level);
      forall f: File | f.number in Numbers(AddedAt(last, level)) ensures f !in base && f !in Held(before, level) {
        var g :| g in AddedAt(last, level) && g.number == f.number;
        assert f in base ==> f in Files(base);
      }
    }
  }

  ghost function WithFile(fs: seq<File>, f: File): set<File> {
    if exists g :: g in fs && SameKey(g, f) then Files(fs) else Files(fs) + {f}
  }

  lemma {:induction false} InsertedFiles(fs: seq<File>, f: File)
    requires Ordered(fs)
    ensures Files(InsertedFile(fs, f)) == WithFile(fs, f)
  {
    hide Ordered, Before, Class, InsertedFile;
    InsertedClass(fs, f, f);
    ClassMembers(fs, f);
    ClassMembers(InsertedFile(fs, f), f);
    BeforeIsTotal(f, f);
    forall g | g in fs ensures g in InsertedFile(fs, f) {
      InsertedClass(fs, f, g);
      ClassMembers(fs, g);
      ClassMembers(InsertedFile(fs, f), g);
      BeforeIsTotal(g, g);
      assert g in Class(fs, g) && Class(InsertedFile(fs, f), g) == Class(fs, g);
    }
    if exists g :: g in fs && SameKey(g, f) {
      var g :| g in fs && SameKey(g, f);
      assert g in Class(fs, f);
      InsertedSame(fs, f);
    } else {
      NoneInClass(fs, f);
      assert f in Class(InsertedFile(fs, f), f);
    }
  }

  lemma {:induction false} InsertedSame(fs: seq<File>, f: File)
    requires Ordered(fs) && exists g :: g in fs && SameKey(g, f)
    ensures InsertedFile(fs, f) == fs
  {
    var g :| g in fs && SameKey(g, f);
    assert fs == [fs[0]] + fs[1..];
    TailOrdered(fs);
    BeforeIsTotal(fs[0], f);
    BeforeIsTotal(fs[0], g);
    if g in fs[1..] {
      BeforeIsTransitive(fs[0], g, f);
      InsertedSame(fs[1..], f);
    }
  }

  /** Files with different keys are all kept. */
  lemma {:induction false} AllHeld(adds: seq<File>)
    requires forall f, g :: f in adds && g in adds && SameKey(f, g) ==> f == g
    ensures Files(AddAll([], adds)) == Files(adds)
  {
    if adds != [] {
      var front, f := adds[..|adds| - 1], adds[|adds| - 1];
      assert adds == front + [f];
      AllHeld(front);
      AddAllMembers([], front);
      InsertedFiles(AddAll([], front), f);
      assert forall g :: g in AddAll([], front) ==> g in Files(front);
      if exists g :: g in AddAll([], front) && SameKey(g, f) {
        var g :| g in AddAll([], front) && SameKey(g, f);
        assert g in front && g == f;
        assert f in Files(AddAll([], front));
      }
      assert Files(adds) == Files(front) + {f};
    } else {
      assert AddAll([], []) == [];
    }
  }

  lemma {:induction false} MergedOrdered(base: seq<File>, added: seq<File>, deleted: set<nat>)
    requires Ordered(base) && Ordered(added) && forall f, g :: f in base && g in added ==> !SameKey(f, g)
    ensures Ordered(Merged(base, added, deleted))
    decreases |base| + |added|
  {
    if base != [] && (added == [] || !Before(added[0], base[0])) {
      TailOrdered(base);
      MergedOrdered(base[1..], added, deleted);
      MergedMembers(base[1..], added, deleted);
      forall f | f in added ensures Before(base[0], f) {
        BeforeIsTotal(base[0], added[0]);
        OrderedAfter(added, base[0], f);
      }
      HeadOrdered(base[0], Merged(base[1..], added, deleted));
      assert [] + Merged(base[1..], added, deleted) == Merged(base[1..], added, deleted);
    } else if added != [] {
      TailOrdered(added);
      MergedOrdered(base, added[1..], deleted);
      MergedMembers(base, added[1..], deleted);
      forall f | f in base ensures Before(added[0], f) {
        OrderedAfter(base, added[0], f);
      }
      HeadOrdered(added[0], Merged(base, added[1..], deleted));
      assert [] + Merged(base, added[1..], deleted) == Merged(base, added[1..], deleted);
    }
  }

  lemma OrderedAfter(fs: seq<File>, f: File, g: File)
    requires Ordered(fs) && g in fs && Before(f, fs[0])
    ensures Before(f, g)
  {
    if g != fs[0] {
      TailOrdered(fs);
      assert fs == [fs[0]] + fs[1..];
      BeforeIsTransitive(f, fs[0], g);
    }
  }

  /** One edit with fresh numbers, on the files of a level. */
  lemma OneEdit(base: seq<File>, e: Edit, level: nat)
    requires Ordered(base) && FreshNumbers(Files(base), [e], level)
    ensures Ordered(Replay(base, [e], level)) && Files(Replay(base, [e], level)) == Applied(Files(base), e, level)
  {
    hide Merged, AddAll, AddsAt;
    assert [e][..|[e]| - 1] == [] && [e][|[e]| - 1] == e && AllAdded([], level) == {};
    HeldOne(e, level);
    HeldOrdered([e], level);
    AddedFiles(e, level);
    var adds := AddsAt(e.added, level);
    assert forall f :: f in adds <==> f in Files(adds);
    AllHeld(adds);
    assert forall f :: f in Held([e], level) <==> f in Files(Held([e], level));
    assert forall f :: f in base <==> f in Files(base);
    MergedOrdered(base, Held([e], level), Masked([e], level));
    MergedMembers(base, Held([e], level), Masked([e], level));
  }

  // ----- the builder -----

  lemma InsertsBehind(fs: seq<File>, i: nat, f: File)
    requires i < |fs| && Before(fs[i], f)
    ensures fs[..i] + InsertedFile(fs[i..], f) == fs[..i + 1] + InsertedFile(fs[i + 1..], f)
  {
    assert fs[i..][1..] == fs[i + 1..] && fs[..i + 1] == fs[..i] + [fs[i]];
  }

  lemma InsertsHere(fs: seq<File>, i: nat, f: File)
    requires i <= |fs| && (i < |fs| ==> !Before(fs[i], f))
    ensures fs[..i] + InsertedFile(fs[i..], f) == if i < |fs| && SameKey(fs[i], f) then fs else fs[..i] + [f] + fs[i..]
  {
    assert fs[..i] + fs[i..] == fs;
  }

  /** Insertion into an ordered set of files. */
  method InsertFile(fs: seq<File>, f: File) returns (r: seq<File>)
    requires Ordered(fs)
    ensures r == InsertedFile(fs, f) && Ordered(r)
    ensures Files(r) == WithFile(fs, f)
  {
    InsertedClass(fs, f, f);
    InsertedFiles(fs, f);
    hide Ordered, Class, InsertedFile, WithFile, Before, SameKey, Files;
    var i := 0;
    assert fs[0..] == fs;
    while i < |fs| && Before(fs[i], f)
      invariant i <= |fs| && InsertedFile(fs, f) == fs[..i] + InsertedFile(fs[i..], f)
    {
      InsertsBehind(fs, i, f);
      i := i + 1;
    }
    InsertsHere(fs, i, f);
    if i < |fs| && SameKey(fs[i], f) {
      return fs;
    }
    r := fs[..i] + [f] + fs[i..];
  }

  /** One level of a builder that has applied `edits`, and then the part `done` of an edit. */
  ghost predicate Tracks(deleted: set<nat>, added: seq<File>, edits: seq<Edit>, done: Edit, l: nat) {
    && Ordered(added)
    && deleted == Masked(edits, l) + DeletedAt(done, l) - Numbers(AddedAt(done, l))
    && added == AddAll(Held(edits, l), AddsAt(done.added, l))
  }

  const NO_EDIT := Edit([], [])

  lemma DeletesOne(deleted: set<nat>, added: seq<File>, edits: seq<Edit>, dels: seq<(nat, nat)>, i: nat, l: nat)
    requires i < |dels| && Tracks(deleted, added, edits, Edit(dels[..i], []), l)
    ensures Tracks(deleted + if l == dels[i].0 then {dels[i].1} else {}, added, edits, Edit(dels[..i + 1], []), l)
  {
    assert dels[..i + 1] == dels[..i] + [dels[i]];
    assert AddedAt(Edit(dels[..i], []), l) == {} == AddedAt(Edit(dels[..i + 1], []), l);
    assert DeletedAt(Edit(dels[..i + 1], []), l) == DeletedAt(Edit(dels[..i], []), l) + if l == dels[i].0 then {dels[i].1} else {};
  }

  lemma AddsOne(deleted: set<nat>, added: seq<File>, edits: seq<Edit>, dels: seq<(nat, nat)>, adds: seq<(nat, File)>, i: nat, l: nat, after: seq<File>)
    requires i < |adds| && Tracks(deleted, added, edits, Edit(dels, adds[..i]), l)
    requires after == if l == adds[i].0 then InsertedFile(added, adds[i].1) else added
    requires Ordered(after)
    ensures Tracks(if l == adds[i].0 then deleted - {adds[i].1.number} else deleted, after, edits, Edit(dels, adds[..i + 1]), l)
  {
    hide Masked, Ordered, AddedAt, DeletedAt, Numbers, Held, InsertedFile, AddAll, AddsAt;
    OneMoreAdded(Held(edits, l), dels, adds, i, l);
    var m, n := Masked(edits, l) + DeletedAt(Edit(dels, adds[..i]), l), Numbers(AddedAt(Edit(dels, adds[..i]), l));
    assert m - n - {adds[i].1.number} == m - (n + {adds[i].1.number});
    assert n + {} == n;
  }

  lemma OneMoreAdded(held: seq<File>, dels: seq<(nat, nat)>, adds: seq<(nat, File)>, i: nat, l: nat)
    requires i < |adds|
    ensures DeletedAt(Edit(dels, adds[..i + 1]), l) == DeletedAt(Edit(dels, adds[..i]), l)
    ensures Numbers(AddedAt(Edit(dels, adds[..i + 1]), l)) ==
      Numbers(AddedAt(Edit(dels, adds[..i]), l)) + if l == adds[i].0 then {adds[i].1.number} else {}
    ensures AddAll(held, AddsAt(adds[..i + 1], l)) ==
      if l == adds[i].0 then InsertedFile(AddAll(held, AddsAt(adds[..i], l)), adds[i].1) else AddAll(held, AddsAt(adds[..i], l))
  {
    assert adds[..i + 1] == adds[..i] + [adds[i]] && adds[..i + 1][..i] == adds[..i];
    assert AddedAt(Edit(dels, adds[..i + 1]), l) == AddedAt(Edit(dels, adds[..i]), l) + if l == adds[i].0 then {adds[i].1} else {} by {
      assert l == adds[i].0 ==> adds[i].1 in AddedAt(Edit(dels, adds[..i + 1]), l);
    }
    var front := AddsAt(adds[..i], l);
    var (level, f) := adds[i];
    assert AddsAt(adds[..i + 1], l) == front + if level == l then [f] else [];
    assert (front + [f])[..|front|] == front && front + [] == front;
  }

  lemma EditDone(deleted: set<nat>, added: seq<File>, edits: seq<Edit>, edit: Edit, l: nat)
    ensures Tracks(deleted, added, edits, edit, l) ==> Tracks(deleted, added, edits + [edit], NO_EDIT, l)
  {
    assert (edits + [edit])[..|edits|] == edits;
    assert DeletedAt(NO_EDIT, l) == {} && AddedAt(NO_EDIT, l) == {};
  }

  class Builder {
    const base: Version
    var deletedFiles: seq<set<nat>>
    var addedFiles: seq<seq<File>>
    ghost var edits: seq<Edit>

    ghost predicate Valid()
      reads this
    {
      Taken(NO_EDIT)
    }

    ghost predicate Taken(done: Edit)
      reads this
    {
      && |deletedFiles| == |addedFiles| == LEVELS
      && forall l :: 0 <= l < LEVELS ==> Arranged(base[l]) && Tracks(deletedFiles[l], addedFiles[l], edits, done, l)
    }

    constructor (base: Version)
      requires forall l :: 0 <= l < LEVELS ==> Arranged(base[l])
      ensures Valid() && this.base == base && edits == []
    {
      this.base := base;
      deletedFiles := seq(LEVELS, _ => {});
      addedFiles := seq(LEVELS, _ => []);
      edits := [];
      forall l: nat ensures Tracks({}, [], [], NO_EDIT, l) {
        assert DeletedAt(NO_EDIT, l) == {} && AddedAt(NO_EDIT, l) == {};
      }
    }

    method Apply(edit: Edit)
      requires Valid() && ValidLevels(edit)
      modifies this
      ensures Valid() && edits == old(edits) + [edit]
    {
      hide Tracks, Arranged;
      var dels, adds := edit.deleted, edit.added;
      for i := 0 to |dels|
        invariant edits == old(edits) && Taken(Edit(dels[..i], []))
      {
        var (level, number) := dels[i];
        ghost var was := deletedFiles;
        deletedFiles := deletedFiles[level := deletedFiles[level] + {number}];
        forall l | 0 <= l < LEVELS ensures Tracks(deletedFiles[l], addedFiles[l], edits, Edit(dels[..i + 1], []), l) {
          DeletesOne(was[l], addedFiles[l], edits, dels, i, l);
          assert was[l] + {} == was[l];
        }
      }
      assert dels[..|dels|] == dels && adds[..0] == [];
      for i := 0 to |adds|
        invariant edits == old(edits) && Taken(Edit(dels, adds[..i]))
      {
        var (level, f) := adds[i];
        ghost var wasDeleted, wasAdded := deletedFiles, addedFiles;
        deletedFiles := deletedFiles[level := deletedFiles[level] - {f.number}];
        assert Ordered(addedFiles[level]) by { OrderedHere(wasDeleted[level], addedFiles[level], edits, Edit(dels, adds[..i]), level); }
        var fs := InsertFile(addedFiles[level], f);
        addedFiles := addedFiles[level := fs];
        forall l | 0 <= l < LEVELS ensures Tracks(deletedFiles[l], addedFiles[l], edits, Edit(dels, adds[..i + 1]), l) {
          OrderedHere(wasDeleted[l], wasAdded[l], edits, Edit(dels, adds[..i]), l);
          AddsOne(wasDeleted[l], wasAdded[l], edits, dels, adds, i, l, addedFiles[l]);
        }
      }
      assert adds[..|adds|] == adds;
      forall l | 0 <= l < LEVELS ensures Tracks(deletedFiles[l], addedFiles[l], edits + [edit], NO_EDIT, l) {
        EditDone(deletedFiles[l], addedFiles[l], edits, edit, l);
      }
      edits := edits + [edit];
    }

    /** Merges the base and added files of each level, dropping the deleted ones. */
    method SaveTo() returns (v: Version)
      requires Valid()
      ensures forall l :: 0 <= l < LEVELS ==> v[l] == Replay(base[l], edits, l)
    {
      hide Tracks, Arranged;
      v := seq(LEVELS, _ => []);
      for level := 0 to LEVELS
        invariant forall l :: 0 <= l < level ==> v[l] == Replay(base[l], edits, l)
      {
        TracksAll(deletedFiles[level], addedFiles[level], edits, level);
        var files := Merge(base[level], addedFiles[level], deletedFiles[level]);
        v := v[level := files];
      }
    }
  }

  lemma TracksAll(deleted: set<nat>, added: seq<File>, edits: seq<Edit>, l: nat)
    requires Tracks(deleted, added, edits, NO_EDIT, l)
    ensures deleted == Masked(edits, l) && added == Held(edits, l) && Ordered(added)
  {
    assert DeletedAt(NO_EDIT, l) == {} && AddedAt(NO_EDIT, l) == {};
  }

  lemma OrderedHere(deleted: set<nat>, added: seq<File>, edits: seq<Edit>, done: Edit, l: nat)
    requires Tracks(deleted, added, edits, done, l)
    ensures Ordered(added)
  {
  }

  /** One level of SaveTo; upper_bound finds the first base file after the added one. */
  method Merge(base: seq<File>, added: seq<File>, deleted: set<nat>) returns (out: seq<File>)
    requires Arranged(base) && Ordered(added)
    ensures out == Merged(base, added, deleted)
  {
    hide Before, Arranged, Ordered, Merged;
    out := [];
    var i := 0;
    assert base[0..] == base && added[0..] == added;
    for j := 0 to |added|
      invariant i <= |base| && out + Merged(base[i..], added[j..], deleted) == Merged(base, added, deleted)
    {
      while i < |base| && !Before(added[j], base[i])
        invariant i <= |base| && out + Merged(base[i..], added[j..], deleted) == Merged(base, added, deleted)
      {
        NextBase(out, base, i, added, j, deleted);
        if base[i].number !in deleted {
          out := out + [base[i]];
        }
        i := i + 1;
      }
      NextAdded(out, base, i, added, j, deleted);
      if added[j].number !in deleted {
        out := out + [added[j]];
      }
    }
    while i < |base|
      invariant i <= |base| && out + Merged(base[i..], added[|added|..], deleted) == Merged(base, added, deleted)
    {
      NextBase(out, base, i, added, |added|, deleted);
      if base[i].number !in deleted {
        out := out + [base[i]];
      }
      i := i + 1;
    }
    MergeEnds(base, added, deleted);
  }

  lemma NextBase(out: seq<File>, base: seq<File>, i: nat, added: seq<File>, j: nat, deleted: set<nat>)
    requires i < |base| && j <= |added| && (j < |added| ==> !Before(added[j], base[i]))
    ensures out + Merged(base[i..], added[j..], deleted) ==
      (if base[i].number in deleted then out else out + [base[i]]) + Merged(base[i + 1..], added[j..], deleted)
  {
    hide Before;
    assert base[i..][1..] == base[i + 1..];
  }

  lemma NextAdded(out: seq<File>, base: seq<File>, i: nat, added: seq<File>, j: nat, deleted: set<nat>)
    requires i <= |base| && j < |added| && (i < |base| ==> Before(added[j], base[i]))
    ensures out + Merged(base[i..], added[j..], deleted) ==
      (if added[j].number in deleted then out else out + [added[j]]) + Merged(base[i..], added[j + 1..], deleted)
  {
    hide Before;
    assert added[j..][1..] == added[j + 1..];
  }

  lemma MergeEnds(base: seq<File>, added: seq<File>, deleted: set<nat>)
    ensures Merged(base[|base|..], added[|added|..], deleted) == []
  {
  }

  predicate ValidLevels(e: Edit) {
    (forall d :: d in e.deleted ==> d.0 < LEVELS) && forall a :: a in e.added ==> a.0 < LEVELS
  }

  // ----- recovery -----

  lemma {:induction false} LiveIsOld(fs: set<File>, edits: seq<Edit>, l: nat)
    ensures LiveFiles(fs, edits, l) <= fs + AllAdded(edits, l)
  {
    if edits != [] {
      LiveIsOld(fs, edits[..|edits| - 1], l);
    }
  }

  /** Edits with fresh numbers stay fresh for the version they are applied to. */
  lemma FreshStep(fs: set<File>, edits: seq<Edit>, l: nat)
    requires edits != [] && FreshNumbers(fs, edits, l)
    ensures FreshNumbers(LiveFiles(fs, edits[..|edits| - 1], l), [edits[|edits| - 1]], l)
  {
    var before, e := edits[..|edits| - 1], edits[|edits| - 1];
    var live, adds := LiveFiles(fs, before, l), AddedAt(e, l);
    LiveIsOld(fs, before, l);
    var one := [e];
    assert one[..|one| - 1] == [] && one[|one| - 1] == e && AllAdded([], l) == {};
    assert FreshNumbers(live, [], l);
    assert forall f, g :: f in live + AllAdded([], l) && g in adds ==> f in fs + AllAdded(before, l) && f.number != g.number;
  }

  /** LogAndApply: the current version and one edit. */
  method LogAndApply(current: Version, edit: Edit) returns (v: Version)
    requires ValidLevels(edit) && forall l :: 0 <= l < LEVELS ==> Arranged(current[l])
    ensures forall l :: 0 <= l < LEVELS ==> v[l] == Replay(current[l], [edit], l)
  {
    var builder := new Builder(current);
    builder.Apply(edit);
    v := builder.SaveTo();
  }

  /** VersionSet::Recover: one builder for the whole manifest. */
  method Recover(base: Version, edits: seq<Edit>) returns (v: Version)
    requires (forall e :: e in edits ==> ValidLevels(e)) && forall l :: 0 <= l < LEVELS ==> Arranged(base[l])
    ensures forall l :: 0 <= l < LEVELS ==> v[l] == Replay(base[l], edits, l)
  {
    hide Arranged, Replay;
    var builder := new Builder(base);
    for i := 0 to |edits|
      invariant builder.Valid() && builder.base == base && builder.edits == edits[..i]
    {
      builder.Apply(edits[i]);
      assert edits[..i + 1] == edits[..i] + [edits[i]];
    }
    assert edits[..|edits|] == edits;
    v := builder.SaveTo();
  }

  /** With fresh numbers the level is a set of files, in order. */
  lemma {:induction false} LiveIsFiles(base: seq<File>, edits: seq<Edit>, l: nat)
    requires Ordered(base) && FreshNumbers(Files(base), edits, l)
    ensures Ordered(Live(base, edits, l)) && Files(Live(base, edits, l)) == LiveFiles(Files(base), edits, l)
  {
    hide Ordered, Replay;
    if edits != [] {
      var before, last := edits[..|edits| - 1], edits[|edits| - 1];
      LiveIsFiles(base, before, l);
      FreshStep(Files(base), edits, l);
      OneEdit(Live(base, before, l), last, l);
    }
  }

  ghost predicate AllFresh(base: Version, edits: seq<Edit>) {
    forall l :: 0 <= l < LEVELS ==> FreshNumbers(Files(base[l]), edits, l)
  }

  ghost predicate IsLive(base: Version, edits: seq<Edit>, v: Version) {
    forall l :: 0 <= l < LEVELS ==> v[l] == Live(base[l], edits, l)
  }

  ghost predicate IsFiles(base: Version, edits: seq<Edit>, v: Version) {
    forall l :: 0 <= l < LEVELS ==> Ordered(v[l]) && Files(v[l]) == LiveFiles(Files(base[l]), edits, l)
  }

  /** Every edit is applied to the version before it, one after the other ... */
  method ApplyAll(base: Version, edits: seq<Edit>) returns (current: Version)
    requires (forall e :: e in edits ==> ValidLevels(e)) && forall l :: 0 <= l < LEVELS ==> Arranged(base[l])
    ensures IsLive(base, edits, current)
  {
    hide Arranged, Replay, Live;
    current := base;
    assert edits[..0] == [] && edits[..|edits|] == edits;
    assert IsLive(base, edits[..0], current) by { StartsLive(base); }
    for i := 0 to |edits|
      invariant IsLive(base, edits[..i], current)
    {
      forall l | 0 <= l < LEVELS ensures Arranged(current[l]) {
        LiveArranged(base[l], edits[..i], l);
      }
      var next := LogAndApply(current, edits[i]);
      forall l | 0 <= l < LEVELS ensures next[l] == Live(base[l], edits[..i + 1], l) {
        LiveStep(base[l], edits, i, l);
      }
      current := next;
    }
  }

  lemma StartsLive(base: Version)
    ensures IsLive(base, [], base)
  {
  }

  lemma LiveStep(base: seq<File>, edits: seq<Edit>, i: nat, l: nat)
    requires i < |edits|
    ensures Live(base, edits[..i + 1], l) == Replay(Live(base, edits[..i], l), [edits[i]], l)
  {
    assert edits[..i + 1][..i] == edits[..i];
  }

  /** ... and at a restart the manifest is replayed through one builder. The version is the very
      one that was current, if no edit makes the two diverge; fresh numbers see to that. */
  method RecoverCurrent(base: Version, edits: seq<Edit>) returns (current: Version, recovered: Version)
    requires (forall e :: e in edits ==> ValidLevels(e)) && forall l :: 0 <= l < LEVELS ==> Arranged(base[l])
    ensures IsLive(base, edits, current) && forall l :: 0 <= l < LEVELS ==> recovered[l] == Replay(base[l], edits, l)
    ensures (forall l :: 0 <= l < LEVELS ==> NeverDiverges(base[l], edits, l)) ==> recovered == current
    ensures AllFresh(base, edits) ==> recovered == current
    ensures AllFresh(base, edits) && (forall l :: 0 <= l < LEVELS ==> Ordered(base[l])) ==> IsFiles(base, edits, current)
  {
    hide Arranged, Ordered, Replay, Live, NeverDiverges, FreshNumbers;
    current := ApplyAll(base, edits);
    recovered := Recover(base, edits);
    forall l | 0 <= l < LEVELS
      ensures FreshNumbers(Files(base[l]), edits, l) ==> NeverDiverges(base[l], edits, l)
      ensures NeverDiverges(base[l], edits, l) ==> recovered[l] == current[l]
      ensures FreshNumbers(Files(base[l]), edits, l) && Ordered(base[l]) ==> Ordered(current[l]) && Files(current[l]) == LiveFiles(Files(base[l]), edits, l)
    {
      ReplayIsLive(base[l], edits, l);
      if FreshNumbers(Files(base[l]), edits, l) {
        FreshNeverDiverges(base[l], edits, l);
        if Ordered(base[l]) {
          LiveIsFiles(base[l], edits, l);
        }
      }
    }
  }
}
