/** The iterator that merges several sorted streams, forwards and backwards: to its caller it is
    one cursor over the sorted sequence of everything. */
module Merger {
  import opened Store

  datatype Direction = Forward | Reverse

  /** `all` is the sorted sequence of what the children hold; no entry is in two of them. */
  ghost predicate Merges(children: seq<seq<Entry>>, all: seq<Entry>) {
    && Sorted(all) && (forall i :: 0 <= i < |children| ==> Sorted(children[i]) && HeldIn(children[i], all))
    && (forall e :: e in all ==> exists i :: 0 <= i < |children| && e in children[i])
    && forall i, k :: 0 <= i < k < |children| ==> Disjoint(children[i], children[k])
  }

  ghost predicate HeldIn(c: seq<Entry>, all: seq<Entry>) {
    forall e :: e in c ==> e in all
  }

  ghost predicate Disjoint(a: seq<Entry>, b: seq<Entry>) {
    forall e :: e in a ==> e !in b
  }

  /** No key is in both. */
  ghost predicate Unlike(a: seq<Entry>, b: seq<Entry>) {
    forall e, f :: e in a && f in b ==> Less(e.key, f.key) || Less(f.key, e.key)
  }

  lemma {:induction false} MergeTwo(a: seq<Entry>, b: seq<Entry>) returns (c: seq<Entry>)
    requires Sorted(a) && Sorted(b) && Unlike(a, b)
    ensures Sorted(c) && forall e :: e in c <==> e in a || e in b
    decreases |a| + |b|
  {
    if a == [] {
      c := b;
    } else if b == [] {
      c := a;
    } else if Less(a[0].key, b[0].key) {
      c := MergeTwo(a[1..], b);
      c := Prepend(a, b, c);
    } else {
      assert a[0] in a && b[0] in b;
      var c0 := MergeTwo(b[1..], a);
      c := Prepend(b, a, c0);
    }
  }

  lemma Prepend(a: seq<Entry>, b: seq<Entry>, rest: seq<Entry>) returns (c: seq<Entry>)
    requires a != [] && b != [] && Sorted(a) && Sorted(b) && Less(a[0].key, b[0].key)
    requires Sorted(rest) && forall e :: e in rest <==> e in a[1..] || e in b
    ensures Sorted(c) && forall e :: e in c <==> e in a || e in b
  {
    c := [a[0]] + rest;
    assert a == [a[0]] + a[1..];
    forall e | e in rest ensures Less(a[0].key, e.key) {
      if e in b {
        var i :| 0 <= i < |b| && b[i] == e;
        assert i > 0 ==> Less(b[0].key, b[i].key);
      }
    }
  }

  /** Streams without a key in common have a merge. */
  lemma {:induction false} MergeExists(children: seq<seq<Entry>>) returns (all: seq<Entry>)
    requires forall i :: 0 <= i < |children| ==> Sorted(children[i])
    requires forall i, k :: 0 <= i < k < |children| ==> Unlike(children[i], children[k])
    ensures Merges(children, all)
  {
    if children == [] {
      all := [];
    } else {
      var n := |children| - 1;
      var front := MergeExists(children[..n]);
      assert Unlike(front, children[n]) by {
        forall e, f | e in front && f in children[n] ensures Less(e.key, f.key) || Less(f.key, e.key) {
          var i :| 0 <= i < n && e in children[..n][i];
          assert Unlike(children[i], children[n]);
        }
      }
      all := MergeTwo(front, children[n]);
      OneMoreChild(children, front, all);
    }
  }

  lemma OneMoreChild(children: seq<seq<Entry>>, front: seq<Entry>, all: seq<Entry>)
    requires children != [] && Merges(children[..|children| - 1], front) && Sorted(all)
    requires forall i :: 0 <= i < |children| ==> Sorted(children[i])
    requires forall i, k :: 0 <= i < k < |children| ==> Unlike(children[i], children[k])
    requires forall e :: e in all <==> e in front || e in children[|children| - 1]
    ensures Merges(children, all)
  {
    var n := |children| - 1;
    forall i | 0 <= i < |children| ensures HeldIn(children[i], all) {
      assert i < n ==> HeldIn(children[..n][i], front);
    }
    forall e | e in all ensures exists i :: 0 <= i < |children| && e in children[i] {
      if e in front {
        var i :| 0 <= i < n && e in children[..n][i];
        assert e in children[i];
      }
    }
    forall i, k | 0 <= i < k < |children| ensures Disjoint(children[i], children[k]) {
      assert Unlike(children[i], children[k]);
    }
  }

  // ----- places in the children and in the whole -----

  /** An entry of the whole is among its first `p`. */
  ghost predicate InFirst(all: seq<Entry>, p: nat, e: Entry) {
    p < |all| ==> Less(e.key, all[p].key)
  }

  lemma InFirstIs(all: seq<Entry>, p: nat, n: nat)
    requires Sorted(all) && n < |all|
    ensures InFirst(all, p, all[n]) <==> n < p || p >= |all|
  {
  }

  /** The first `q` entries of a child are its share of the first `p`. */
  ghost predicate CutAt(c: seq<Entry>, q: nat, all: seq<Entry>, p: nat) {
    && q <= |c|
    && (forall j :: 0 <= j < q ==> InFirst(all, p, c[j]))
    && forall j :: q <= j < |c| ==> !InFirst(all, p, c[j])
  }

  /** A child that moves backwards rests on the last entry of its share, or on none. */
  ghost predicate RestsAt(c: seq<Entry>, at: nat, all: seq<Entry>, p: nat) {
    at <= |c| && CutAt(c, if at < |c| then at + 1 else 0, all, p)
  }

  /** The next entry of the whole moves one child on and leaves every other's share as it is. */
  lemma CutMoves(c: seq<Entry>, q: nat, all: seq<Entry>, p: nat)
    requires Sorted(all) && HeldIn(c, all) && Sorted(c) && p < |all|
    ensures q < |c| && c[q] == all[p] ==> (CutAt(c, q, all, p) <==> CutAt(c, q + 1, all, p + 1))
    ensures all[p] !in c ==> (CutAt(c, q, all, p) <==> CutAt(c, q, all, p + 1))
  {
    forall j | 0 <= j < |c| ensures InFirst(all, p + 1, c[j]) <==> InFirst(all, p, c[j]) || c[j] == all[p] {
      assert c[j] in all;
      var n :| 0 <= n < |all| && all[n] == c[j];
      InFirstIs(all, p, n);
      InFirstIs(all, p + 1, n);
    }
    if q < |c| && c[q] == all[p] {
      PlaceIsCut(c, q, all, p);
      assert forall j :: q < j < |c| ==> Less(c[q].key, c[j].key);
    }
  }

  /** Where the entry is, there is the cut. */
  lemma PlaceIsCut(c: seq<Entry>, q: nat, all: seq<Entry>, p: nat)
    requires Sorted(c) && q < |c| && p < |all| && c[q] == all[p]
    ensures CutAt(c, q, all, p)
  {
    assert forall j :: 0 <= j < q ==> Less(c[j].key, c[q].key);
    assert forall j :: q < j < |c| ==> Less(c[q].key, c[j].key);
  }

  /** A search for the key of an entry finds the cut before it. */
  lemma SeekIsCut(c: seq<Entry>, q: nat, all: seq<Entry>, p: nat)
    requires p < |all| && q <= |c|
    requires (forall j :: 0 <= j < q ==> Less(c[j].key, all[p].key)) && forall j :: q <= j < |c| ==> !Less(c[j].key, all[p].key)
    ensures CutAt(c, q, all, p)
  {
  }

  /** The child that holds an entry, and no other. */
  lemma Holder(children: seq<seq<Entry>>, all: seq<Entry>, p: nat) returns (i: nat, j: nat)
    requires Merges(children, all) && p < |all|
    ensures i < |children| && j < |children[i]| && children[i][j] == all[p]
    ensures forall k :: 0 <= k < |children| && k != i ==> all[p] !in children[k]
  {
    assert all[p] in all;
    i :| 0 <= i < |children| && all[p] in children[i];
    j :| 0 <= j < |children[i]| && children[i][j] == all[p];
    forall k | 0 <= k < |children| && k != i ensures all[p] !in children[k] {
      assert if i < k then Disjoint(children[i], children[k]) else Disjoint(children[k], children[i]);
    }
  }

  lemma CutHere(c: seq<Entry>, q: nat, all: seq<Entry>, p: nat, j: nat)
    requires CutAt(c, q, all, p) && j < |c|
    ensures InFirst(all, p, c[j]) <==> j < q
  {
  }

  lemma CutIsUnique(c: seq<Entry>, q: nat, q': nat, all: seq<Entry>, p: nat)
    requires CutAt(c, q, all, p) && CutAt(c, q', all, p)
    ensures q == q'
  {
    if q < q' {
      CutHere(c, q, all, p, q);
      CutHere(c, q', all, p, q);
    } else if q' < q {
      CutHere(c, q, all, p, q');
      CutHere(c, q', all, p, q');
    }
  }

  /** What the other children show next comes later. */
  lemma NextIsLeast(c: seq<Entry>, q: nat, all: seq<Entry>, p: nat)
    requires Sorted(all) && HeldIn(c, all) && CutAt(c, q, all, p) && p < |all| && q < |c| && all[p] !in c
    ensures Less(all[p].key, c[q].key)
  {
    assert c[q] in all;
    var n :| 0 <= n < |all| && all[n] == c[q];
    InFirstIs(all, p, n);
    assert c[q] in c;
  }

  lemma LastIsGreatest(c: seq<Entry>, at: nat, all: seq<Entry>, p: nat)
    requires Sorted(all) && HeldIn(c, all) && RestsAt(c, at, all, p + 1) && p < |all| && at < |c| && all[p] !in c
    ensures Less(c[at].key, all[p].key)
  {
    assert c[at] in all;
    var n :| 0 <= n < |all| && all[n] == c[at];
    InFirstIs(all, p + 1, n);
    assert c[at] in c;
  }

  lemma AllPassed(c: seq<Entry>, q: nat, all: seq<Entry>, p: nat)
    requires Sorted(all) && HeldIn(c, all)
    ensures p == |all| ==> (CutAt(c, q, all, p) <==> q == |c|)
    ensures p == 0 ==> (CutAt(c, q, all, p) <==> q == 0)
  {
    if p == 0 {
      forall j | 0 <= j < |c| ensures !InFirst(all, 0, c[j]) {
        assert c[j] in all;
        var n :| 0 <= n < |all| && all[n] == c[j];
        InFirstIs(all, 0, n);
      }
    }
    if p == |all| && CutAt(c, q, all, p) && q < |c| {
      CutHere(c, q, all, p, q);
    }
    if p == 0 && CutAt(c, q, all, p) && 0 < q {
      CutHere(c, q, all, p, 0);
    }
  }

  lemma CutFits(c: seq<Entry>, q: nat, all: seq<Entry>, p: nat)
    requires CutAt(c, q, all, p)
    ensures q <= |c|
  {
  }

  // ----- moves of one child -----

  method SeekIn(c: seq<Entry>, key: InternalKey) returns (q: nat)
    requires Sorted(c)
    ensures q <= |c|
    ensures (forall j :: 0 <= j < q ==> Less(c[j].key, key)) && forall j :: q <= j < |c| ==> !Less(c[j].key, key)
  {
    q := 0;
    while q < |c| && Less(c[q].key, key)
      invariant q <= |c| && forall j :: 0 <= j < q ==> Less(c[j].key, key)
    {
      q := q + 1;
    }
    assert forall j :: q < j < |c| ==> Less(c[q].key, c[j].key);
  }

  predicate SameKey(a: InternalKey, b: InternalKey) {
    !Less(a, b) && !Less(b, a)
  }

  /** Past the entry with this key, if the child stands on it. */
  function StepPast(c: seq<Entry>, q: nat, key: InternalKey): nat
    requires q <= |c|
  {
    if q < |c| && SameKey(key, c[q].key) then q + 1 else q
  }

  /** One back, or onto the last entry; no entry is the end. */
  function StepBack(c: seq<Entry>, q: nat): (r: nat)
    requires q <= |c|
    ensures r <= |c|
  {
    if q > 0 then q - 1 else |c|
  }

  lemma BackRests(c: seq<Entry>, q: nat, all: seq<Entry>, p: nat)
    requires CutAt(c, q, all, p)
    ensures RestsAt(c, StepBack(c, q), all, p)
  {
  }

  class MergingIterator {
    const children: seq<seq<Entry>>
    /** The place of each child; its end when it is not valid. */
    var at: seq<nat>
    /** The child whose entry shows, -1 for none. */
    var current: int
    var direction: Direction
    /** What is walked over, and the place in it; its end when not valid. */
    ghost const all: seq<Entry>
    ghost var pos: nat

    ghost predicate Inv()
      reads this
    {
      && Merges(children, all) && |at| == |children| && pos <= |all|
      && (forall i :: 0 <= i < |children| ==> at[i] <= |children[i]|)
      && -1 <= current < |children| && (current >= 0 <==> pos < |all|)
      && (current >= 0 ==> Shows(current))
      && (current >= 0 ==> if direction.Forward? then Cut(pos) else Resting(pos + 1))
    }

    ghost predicate Shows(i: int)
      requires |at| == |children| && pos < |all|
      reads this
    {
      0 <= i < |children| && at[i] < |children[i]| && children[i][at[i]] == all[pos]
    }

    ghost predicate Cut(p: nat)
      requires |at| == |children|
      reads this
    {
      forall i :: 0 <= i < |children| ==> CutAt(children[i], at[i], all, p)
    }

    ghost predicate Resting(p: nat)
      requires |at| == |children|
      reads this
    {
      forall i :: 0 <= i < |children| ==> RestsAt(children[i], at[i], all, p)
    }

    constructor (children: seq<seq<Entry>>, ghost all: seq<Entry>)
      requires Merges(children, all)
      ensures Inv() && Placed() && this.children == children && this.all == all && pos == |all|
    {
      this.children, this.all := children, all;
      at := seq(|children|, i requires 0 <= i < |children| => |children[i]|);
      current, direction, pos := -1, Forward, |all|;
    }

    predicate Valid()
      reads this
    {
      current >= 0
    }

    /** Valid exactly if it stands on an entry. */
    ghost predicate Placed()
      reads this
    {
      pos <= |all| && (Valid() <==> pos < |all|)
    }

    /** The place of the current entry, or -1 when there is none. */
    ghost function At(): int
      reads this
    {
      if pos < |all| then pos else -1
    }

    method Current() returns (e: Entry)
      requires Inv() && Valid()
      ensures pos < |all| && e == all[pos]
    {
      e := children[current][at[current]];
    }

    /** The child to show next; the others show later entries. */
    lemma ShowsNext(p: nat) returns (h: int)
      requires Merges(children, all) && |at| == |children| && p <= |all| && Cut(p)
      ensures forall k :: 0 <= k < |children| ==> at[k] <= |children[k]|
      ensures p == |all| ==> h == |children| && forall k :: 0 <= k < |children| ==> at[k] == |children[k]|
      ensures p < |all| ==> 0 <= h < |children| && at[h] < |children[h]| && children[h][at[h]] == all[p]
      ensures p < |all| ==> forall k :: 0 <= k < |children| && k != h && at[k] < |children[k]| ==> Less(all[p].key, children[k][at[k]].key)
    {
      hide CutAt, Less;
      h := |children|;
      forall k | 0 <= k < |children| ensures at[k] <= |children[k]| && (p == |all| ==> at[k] == |children[k]|) {
        CutFits(children[k], at[k], all, p);
        AllPassed(children[k], at[k], all, p);
      }
      if p < |all| {
        var j;
        h, j := Holder(children, all, p);
        PlaceIsCut(children[h], j, all, p);
        CutIsUnique(children[h], j, at[h], all, p);
        forall k | 0 <= k < |children| && k != h && at[k] < |children[k]| ensures Less(all[p].key, children[k][at[k]].key) {
          NextIsLeast(children[k], at[k], all, p);
        }
      }
    }

    /** The first child with the least entry. */
    method FindSmallest(ghost p: nat)
      requires Merges(children, all) && |at| == |children| && p <= |all| && Cut(p)
      modifies this`current, this`direction, this`pos
      ensures Inv() && Placed() && pos == p && direction == Forward
    {
      hide Merges, CutAt;
      ghost var h := ShowsNext(p);
      direction, pos := Forward, p;
      var smallest := -1;
      for i := 0 to |children|
        invariant -1 <= smallest < i
        invariant smallest >= 0 ==> at[smallest] < |children[smallest]|
        invariant h < i ==> smallest == h
      {
        if at[i] < |children[i]| {
          if smallest < 0 {
            smallest := i;
          } else if Less(children[i][at[i]].key, children[smallest][at[smallest]].key) {
            smallest := i;
          }
        }
      }
      current := smallest;
    }

    /** The child to show next when moving backwards. */
    lemma ShowsLast(p: nat) returns (h: int)
      requires Merges(children, all) && |at| == |children| && p <= |all| && Resting(p)
      ensures forall k :: 0 <= k < |children| ==> at[k] <= |children[k]|
      ensures p == 0 ==> h == -1 && forall k :: 0 <= k < |children| ==> at[k] == |children[k]|
      ensures p > 0 ==> 0 <= h < |children| && at[h] < |children[h]| && children[h][at[h]] == all[p - 1]
      ensures p > 0 ==> forall k :: 0 <= k < |children| && k != h && at[k] < |children[k]| ==> Less(children[k][at[k]].key, all[p - 1].key)
    {
      hide CutAt, Less;
      h := -1;
      forall k | 0 <= k < |children| ensures at[k] <= |children[k]| && (p == 0 ==> at[k] == |children[k]|) {
        AllPassed(children[k], if at[k] < |children[k]| then at[k] + 1 else 0, all, p);
      }
      if p > 0 {
        var j;
        h, j := Holder(children, all, p - 1);
        PlaceIsCut(children[h], j, all, p - 1);
        CutMoves(children[h], j, all, p - 1);
        CutIsUnique(children[h], j + 1, if at[h] < |children[h]| then at[h] + 1 else 0, all, p);
        forall k | 0 <= k < |children| && k != h && at[k] < |children[k]| ensures Less(children[k][at[k]].key, all[p - 1].key) {
          LastIsGreatest(children[k], at[k], all, p - 1);
        }
      }
    }

    /** The last child with the greatest entry. */
    method FindLargest(ghost p: nat)
      requires Merges(children, all) && |at| == |children| && p <= |all| && Resting(p)
      modifies this`current, this`direction, this`pos
      ensures Inv() && Placed() && direction == Reverse && pos == if p == 0 then |all| else p - 1
    {
      hide Merges, CutAt;
      ghost var h := ShowsLast(p);
      direction, pos := Reverse, if p == 0 then |all| else p - 1;
      var largest, i := -1, |children|;
      while i > 0
        invariant 0 <= i <= |children|
        invariant largest == -1 || i <= largest < |children|
        invariant largest >= 0 ==> at[largest] < |children[largest]|
        invariant i <= h ==> largest == h
      {
        i := i - 1;
        if at[i] < |children[i]| {
          if largest < 0 {
            largest := i;
          } else if Less(children[largest][at[largest]].key, children[i][at[i]].key) {
            largest := i;
          }
        }
      }
      current := largest;
    }

    method SeekToFirst()
      requires Inv()
      modifies this
      ensures Inv() && Placed() && pos == 0
    {
      hide Merges, CutAt;
      at := seq(|children|, _ => 0);
      forall i | 0 <= i < |children| ensures CutAt(children[i], at[i], all, 0) {
        ChildOf(children, all, i);
        AllPassed(children[i], 0, all, 0);
      }
      FindSmallest(0);
    }

    method SeekToLast()
      requires Inv()
      modifies this
      ensures Inv() && Placed() && pos == if all == [] then 0 else |all| - 1
    {
      hide Merges, CutAt;
      at := seq(|children|, i requires 0 <= i < |children| => StepBack(children[i], |children[i]|));
      forall i | 0 <= i < |children| ensures RestsAt(children[i], at[i], all, |all|) {
        ChildOf(children, all, i);
        AllPassed(children[i], |children[i]|, all, |all|);
        BackRests(children[i], |children[i]|, all, |all|);
      }
      FindLargest(|all|);
    }

    method Seek(target: InternalKey)
      requires Inv()
      modifies this
      ensures Inv() && Placed()
      ensures forall i :: 0 <= i < pos ==> Less(all[i].key, target)
      ensures forall i :: pos <= i < |all| ==> !Less(all[i].key, target)
    {
      ghost var p := FirstNotLess(all, target);
      hide Merges, CutAt, Less;
      var i := 0;
      while i < |children|
        invariant i <= |children| && |at| == |children|
        invariant forall k :: 0 <= k < i ==> CutAt(children[k], at[k], all, p)
      {
        ChildOf(children, all, i);
        var q := SeekIn(children[i], target);
        TargetIsCut(children[i], q, all, p, target);
        at := at[i := q];
        i := i + 1;
      }
      FindSmallest(p);
    }

    /** The children other than the current one take up places after its entry. */
    method TurnForward()
      requires Inv() && Valid() && direction.Reverse?
      modifies this`at, this`direction
      ensures Inv() && direction.Forward?
    {
      hide Merges, CutAt, Less;
      var key := children[current][at[current]].key;
      var i := 0;
      while i < |children|
        invariant i <= |children| && |at| == |children| && at[current] == old(at[current])
        invariant forall k :: 0 <= k < i ==> CutAt(children[k], at[k], all, pos)
      {
        ChildOf(children, all, i);
        if i == current {
          PlaceIsCut(children[i], at[i], all, pos);
        } else {
          OnlyHere(children, all, pos, current, i);
          var q := SeekIn(children[i], key);
          SeekIsCut(children[i], q, all, pos);
          NotStepped(children[i], q, all, pos);
          at := at[i := StepPast(children[i], q, key)];
        }
        i := i + 1;
      }
      direction := Forward;
      CutsFit(pos);
    }

    /** ... or rest before it. */
    method TurnBack()
      requires Inv() && Valid() && direction.Forward?
      modifies this`at, this`direction
      ensures Inv() && direction.Reverse?
    {
      hide Merges, CutAt, Less;
      var key := children[current][at[current]].key;
      var i := 0;
      while i < |children|
        invariant i <= |children| && |at| == |children| && at[current] == old(at[current])
        invariant forall k :: 0 <= k < i ==> RestsAt(children[k], at[k], all, pos + 1)
      {
        ChildOf(children, all, i);
        if i == current {
          PlaceIsCut(children[i], at[i], all, pos);
          CutMoves(children[i], at[i], all, pos);
        } else {
          OnlyHere(children, all, pos, current, i);
          var q := SeekIn(children[i], key);
          SeekIsCut(children[i], q, all, pos);
          CutMoves(children[i], q, all, pos);
          BackRests(children[i], q, all, pos + 1);
          at := at[i := StepBack(children[i], q)];
        }
        i := i + 1;
      }
      direction := Reverse;
    }

    lemma CutsFit(p: nat)
      requires |at| == |children| && Cut(p)
      ensures forall i :: 0 <= i < |children| ==> at[i] <= |children[i]|
    {
    }

    /** One forward, from either direction. */
    method Next()
      requires Inv() && Valid()
      modifies this
      ensures Inv() && Placed() && pos == old(pos) + 1
    {
      hide Merges, CutAt;
      if direction.Reverse? {
        TurnForward();
      }
      ghost var p, was := pos, at;
      at := at[current := at[current] + 1];
      forall i | 0 <= i < |children| ensures CutAt(children[i], at[i], all, p + 1) {
        ChildOf(children, all, i);
        CutMoves(children[i], was[i], all, p);
        if i != current {
          OnlyHere(children, all, p, current, i);
        }
      }
      FindSmallest(p + 1);
    }

    /** One backward, from either direction; before the first there is none. */
    method Prev()
      requires Inv() && Valid()
      modifies this
      ensures Inv() && Placed() && pos == if old(pos) == 0 then |all| else old(pos) - 1
    {
      hide Merges, CutAt;
      if direction.Forward? {
        TurnBack();
      }
      ghost var p, was := pos, at;
      at := at[current := StepBack(children[current], at[current])];
      forall i | 0 <= i < |children| ensures RestsAt(children[i], at[i], all, p) {
        ChildOf(children, all, i);
        if i == current {
          PlaceIsCut(children[i], was[i], all, p);
          BackRests(children[i], was[i], all, p);
        } else {
          OnlyHere(children, all, p, current, i);
          CutMoves(children[i], if was[i] < |children[i]| then was[i] + 1 else 0, all, p);
        }
      }
      FindLargest(p);
    }
  }

  lemma ChildOf(children: seq<seq<Entry>>, all: seq<Entry>, i: nat)
    requires Merges(children, all) && i < |children|
    ensures Sorted(all) && Sorted(children[i]) && HeldIn(children[i], all)
  {
  }

  lemma OnlyHere(children: seq<seq<Entry>>, all: seq<Entry>, p: nat, cur: nat, k: nat)
    requires Merges(children, all) && p < |all| && cur < |children| && k < |children| && k != cur && all[p] in children[cur]
    ensures all[p] !in children[k]
  {
    assert if cur < k then Disjoint(children[cur], children[k]) else Disjoint(children[k], children[cur]);
  }

  /** No other child stands on an entry with the current one's key. */
  lemma NotStepped(c: seq<Entry>, q: nat, all: seq<Entry>, p: nat)
    requires Sorted(all) && HeldIn(c, all) && p < |all| && CutAt(c, q, all, p) && all[p] !in c
    ensures q <= |c| && StepPast(c, q, all[p].key) == q
  {
    if q < |c| {
      NextIsLeast(c, q, all, p);
    }
  }

  lemma {:induction false} FirstNotLess(all: seq<Entry>, target: InternalKey) returns (p: nat)
    requires Sorted(all)
    ensures p <= |all|
    ensures forall i :: 0 <= i < p ==> Less(all[i].key, target)
    ensures forall i :: p <= i < |all| ==> !Less(all[i].key, target)
  {
    p := 0;
    while p < |all| && Less(all[p].key, target)
      invariant p <= |all| && forall i :: 0 <= i < p ==> Less(all[i].key, target)
    {
      p := p + 1;
    }
    assert forall i :: p < i < |all| ==> Less(all[p].key, all[i].key);
  }

  lemma TargetIsCut(c: seq<Entry>, q: nat, all: seq<Entry>, p: nat, target: InternalKey)
    requires Sorted(all) && HeldIn(c, all) && p <= |all| && q <= |c|
    requires (forall i :: 0 <= i < p ==> Less(all[i].key, target)) && forall i :: p <= i < |all| ==> !Less(all[i].key, target)
    requires (forall j :: 0 <= j < q ==> Less(c[j].key, target)) && forall j :: q <= j < |c| ==> !Less(c[j].key, target)
    ensures CutAt(c, q, all, p)
  {
    forall j | 0 <= j < |c| ensures InFirst(all, p, c[j]) <==> Less(c[j].key, target) {
      assert c[j] in all;
      var n :| 0 <= n < |all| && all[n] == c[j];
      InFirstIs(all, p, n);
    }
  }
}
