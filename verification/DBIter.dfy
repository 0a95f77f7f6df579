/** The user-facing iterator: a bidirectional cursor over the values visible at a
    snapshot, driven by the merging iterator over all entries. */
module DBIter {
  import opened Store
  import Merger

  // ----- the sequence the cursor walks -----

  /** Entry `i` is what a reader at `s` sees of its user key. */
  ghost predicate Live(es: seq<Entry>, s: nat, i: int) {
    0 <= i < |es| && es[i].key.sequence <= s && es[i].key.kind.Put?
    && forall j :: 0 <= j < i && es[j].key.user == es[i].key.user ==> es[j].key.sequence > s
  }

  /** The visible values among the first `n` entries, in key order. */
  ghost function View(es: seq<Entry>, s: nat, n: nat): seq<Entry>
    requires n <= |es|
  {
    if n == 0 then [] else View(es, s, n - 1) + if Live(es, s, n - 1) then [es[n - 1]] else []
  }

  lemma {:induction false} ViewPrefix(es: seq<Entry>, s: nat, m: nat, n: nat)
    requires m <= n <= |es|
    ensures View(es, s, m) <= View(es, s, n)
    ensures (forall i :: m <= i < n ==> !Live(es, s, i)) ==> View(es, s, m) == View(es, s, n)
  {
    if m < n {
      ViewPrefix(es, s, m, n - 1);
    }
  }

  lemma {:induction false} ViewMember(es: seq<Entry>, s: nat, n: nat, e: Entry)
    requires n <= |es|
    ensures e in View(es, s, n) <==> exists i :: 0 <= i < n && es[i] == e && Live(es, s, i)
  {
    if n > 0 {
      ViewMember(es, s, n - 1, e);
    }
  }

  /** The view is strictly increasing in user key ... */
  lemma {:induction false} ViewSorted(es: seq<Entry>, s: nat, n: nat)
    requires Sorted(es) && n <= |es|
    ensures forall i, j :: 0 <= i < j < |View(es, s, n)| ==> View(es, s, n)[i].key.user < View(es, s, n)[j].key.user
  {
    if n > 0 {
      ViewSorted(es, s, n - 1);
      var v := View(es, s, n - 1);
      if Live(es, s, n - 1) {
        forall i | 0 <= i < |v| ensures v[i].key.user < es[n - 1].key.user {
          ViewMember(es, s, n - 1, v[i]);
          var a :| 0 <= a < n - 1 && es[a] == v[i] && Live(es, s, a);
          assert Less(es[a].key, es[n - 1].key);
        }
      }
    }
  }

  lemma NewestIsLive(es: seq<Entry>, s: nat, k: UserKey, e: Entry) returns (i: nat)
    requires Sorted(es) && DistinctSeqs(Elements(es))
    requires Newest(Elements(es), k, s, e) && e.key.kind.Put?
    ensures i < |es| && es[i] == e && Live(es, s, i)
  {
    i :| 0 <= i < |es| && es[i] == e;
    forall j | 0 <= j < i && es[j].key.user == k ensures es[j].key.sequence > s {
      var d := es[j];
      assert Less(d.key, e.key) && d in Elements(es);
      assert Visible(d, k, s) ==> d.key.sequence <= e.key.sequence;
    }
  }

  /** ... and holds a key with a value exactly when a read of the key finds the value. */
  lemma ViewIsLookup(es: seq<Entry>, s: nat, k: UserKey, v: Value)
    requires Sorted(es) && DistinctSeqs(Elements(es))
    ensures Lookup(Elements(es), k, s) == Found(v)
       <==> exists e :: e in View(es, s, |es|) && e.key.user == k && e.value == v
  {
    hide Lookup, View;
    if Lookup(Elements(es), k, s) == Found(v) {
      var e := NewestFound(Elements(es), k, s, v);
      var i := NewestIsLive(es, s, k, e);
      ViewMember(es, s, |es|, e);
    }
    forall e | e in View(es, s, |es|) && e.key.user == k && e.value == v
      ensures Lookup(Elements(es), k, s) == Found(v)
    {
      ViewMember(es, s, |es|, e);
      var i :| 0 <= i < |es| && es[i] == e && Live(es, s, i);
      LiveIsFound(es, s, i);
    }
  }

  lemma NewestFound(es: set<Entry>, k: UserKey, s: nat, v: Value) returns (e: Entry)
    requires Lookup(es, k, s) == Found(v)
    ensures Newest(es, k, s, e) && e.key.kind.Put? && e.value == v && e.key.user == k
  {
    var n :| Newest(es, k, s, n) && Answer(n) == Found(v);
    assert Answer(n).Found? && Answer(n).value == v;
    e := n;
  }

  lemma LiveIsFound(es: seq<Entry>, s: nat, i: int)
    requires Sorted(es) && DistinctSeqs(Elements(es)) && Live(es, s, i)
    ensures Lookup(Elements(es), es[i].key.user, s) == Found(es[i].value)
  {
    var e, k := es[i], es[i].key.user;
    forall f | f in Elements(es) && Visible(f, k, s) ensures f.key.sequence <= e.key.sequence {
      var j :| 0 <= j < |es| && es[j] == f;
      assert i < j ==> Less(es[i].key, es[j].key);
    }
    LookupIs(Elements(es), k, s, e);
  }

  datatype Direction = Forward | Reverse
  datatype Option<T> = None | Some(value: T)

  // ----- the cursor -----

  class DBIter {
    const iter: Merger.MergingIterator
    const sequence: nat
    var direction: Direction
    var valid: bool
    /** None when cleared: a cleared key is never compared with. */
    var savedKey: Option<UserKey>
    var savedValue: Value
    /** Index of the entry the cursor stands on. */
    ghost var cur: int

    ghost predicate Inv()
      reads this, iter
    {
      var es := iter.all;
      Sorted(es) && iter.Inv() && iter.Placed()
      && (valid ==> Live(es, sequence, cur))
      && (valid && direction.Forward? ==> iter.pos == cur)
      && (valid && direction.Reverse? ==>
            && savedKey == Some(es[cur].key.user) && savedValue == es[cur].value
            && JustBefore(es, sequence, iter.At(), cur))
    }

    /** What the cursor walks over. */
    ghost function Visible(): seq<Entry> {
      View(iter.all, sequence, |iter.all|)
    }

    /** Index into Visible(). */
    ghost function Position(): nat
      requires Inv() && valid
      reads this, iter
    {
      |View(iter.all, sequence, cur)|
    }

    constructor (iter: Merger.MergingIterator, sequence: nat)
      requires Sorted(iter.all) && iter.Inv() && iter.Placed()
      ensures this.iter == iter && this.sequence == sequence && Inv() && !valid
    {
      this.iter, this.sequence := iter, sequence;
      direction, valid, savedKey, savedValue, cur := Forward, false, None, "", 0;
    }

    method Key() returns (k: UserKey)
      requires Inv() && valid
      ensures Position() < |Visible()| && k == Visible()[Position()].key.user
    {
      StandsOn(iter.all, sequence, cur);
      if direction.Forward? {
        var e := iter.Current();
        k := e.key.user;
      } else {
        k := savedKey.value;
      }
    }

    method Value() returns (v: Value)
      requires Inv() && valid
      ensures Position() < |Visible()| && v == Visible()[Position()].value
    {
      StandsOn(iter.all, sequence, cur);
      if direction.Forward? {
        var e := iter.Current();
        v := e.value;
      } else {
        v := savedValue;
      }
    }

    method Next()
      requires Inv() && valid
      modifies this, iter
      ensures Inv()
      ensures valid <==> old(Position()) + 1 < |Visible()|
      ensures valid ==> Position() == old(Position()) + 1
    {
      hide Merger.MergingIterator.Inv;
      ghost var from := cur + 1;
      ghost var es := iter.all;
      if direction.Reverse? {
        direction := Forward;
        if !iter.Valid() {
          iter.SeekToFirst();
        } else {
          iter.Next();
        }
        if !iter.Valid() {
          // The current entry is still ahead, so the source's exit here is never taken.
          assert false;
        }
      } else {
        var e := iter.Current();
        savedKey := Some(e.key.user);
      }
      SkipCurrent(es, sequence, iter.pos, from - 1);
      FindNextUserEntry(true, from);
      OneStep(es, sequence, from - 1, if valid then cur else |es|);
    }

    /** Advances to the first live entry at or after `from`. */
    method FindNextUserEntry(skipping0: bool, ghost from: nat)
      requires Sorted(iter.all) && iter.Inv() && iter.Placed() && direction.Forward? && iter.Valid()
      requires iter.pos <= from <= |iter.all|
      requires skipping0 ==> savedKey.Some?
      requires SkipsRightly(iter.all, sequence, iter.pos, from, skipping0, savedKey)
      modifies this, iter
      ensures iter.Inv() && iter.Placed() && direction.Forward? && from <= iter.pos && (valid <==> iter.Valid())
      ensures valid ==> Live(iter.all, sequence, iter.pos) && cur == iter.pos
      ensures forall i :: from <= i < iter.pos ==> !Live(iter.all, sequence, i)
    {
      hide Merger.MergingIterator.Inv;
      var skipping := skipping0;
      ghost var es := iter.all;
      while iter.Valid()
        invariant direction.Forward? && iter.Inv() && iter.Placed()
        invariant skipping ==> savedKey.Some?
        invariant SkipsRightly(es, sequence, iter.pos, from, skipping, savedKey)
        invariant forall i :: from <= i < iter.pos ==> !Live(es, sequence, i)
        decreases |es| - iter.pos
      {
        var e := iter.Current();
        if e.key.sequence <= sequence && e.key.kind.Deletion? {
          SkipDeletion(es, sequence, iter.pos, from, skipping, savedKey);
          savedKey, skipping := Some(e.key.user), true;
        } else if e.key.sequence <= sequence && !(skipping && e.key.user <= savedKey.value) {
          Yields(es, sequence, iter.pos, from, skipping, savedKey);
          valid := true;
          savedKey := None;
          cur := iter.pos;
          return;
        } else {
          SkipHidden(es, sequence, iter.pos, from, skipping, savedKey);
        }
        iter.Next();
      }
      savedKey := None;
      valid := false;
    }

    method Prev()
      requires Inv() && valid
      modifies this, iter
      ensures Inv()
      ensures valid <==> old(Position()) > 0
      ensures valid ==> Position() == old(Position()) - 1
    {
      hide Merger.MergingIterator.Inv, Candidate, Live, View, JustBefore, Sorted;
      ghost var es := iter.all;
      ghost var to := cur;
      StandsOn(es, sequence, cur);
      BeforeCurrent(es, sequence, cur, iter.At());
      if direction.Forward? {
        TurnBack(to);
        if !iter.Valid() {
          OneStepBack(es, sequence, -1, to);
          return;
        }
      }
      FindPrevUserEntry();
      OneStepBack(es, sequence, if valid then cur else -1, to);
    }

    /** From a current entry back over all entries of its key; at the start of the stream there
        is nothing before it. */
    method TurnBack(ghost to: int)
      requires Sorted(iter.all) && iter.Inv() && iter.Placed() && direction.Forward? && Live(iter.all, sequence, to) && iter.pos == to
      modifies this`direction, this`valid, this`savedKey, this`savedValue, iter
      ensures iter.Inv() && iter.Placed() && -1 <= iter.At() < to
      ensures if iter.Valid() then direction.Reverse? else direction.Forward? && !valid
      ensures forall i :: iter.At() < i < to ==> !Live(iter.all, sequence, i)
    {
      hide Merger.MergingIterator.Inv;
      ghost var es := iter.all;
      var e := iter.Current();
      savedKey := Some(e.key.user);
      while true
        invariant iter.Inv() && iter.Placed()
        invariant direction.Forward? && iter.Valid() && iter.pos <= to && savedKey == Some(es[to].key.user)
        invariant forall i :: iter.pos <= i <= to ==> es[i].key.user == es[to].key.user
        decreases iter.pos
      {
        iter.Prev();
        if !iter.Valid() {
          valid := false;
          savedKey := None;
          savedValue := "";
          return;
        }
        e := iter.Current();
        if e.key.user < savedKey.value {
          break;
        }
        assert Less(es[iter.pos].key, es[to].key);
      }
      direction := Reverse;
    }

    /** Moves back to the last live entry at or before the internal position. */
    method FindPrevUserEntry()
      requires Sorted(iter.all) && direction.Reverse? && iter.Inv() && iter.Placed()
      modifies this, iter
      ensures Inv()
      ensures valid ==> 0 <= cur <= old(iter.At())
      ensures forall i :: (if valid then cur else -1) < i <= old(iter.At()) ==> !Live(iter.all, sequence, i)
    {
      hide Merger.MergingIterator.Inv, Candidate, Live, Sorted, JustBefore;
      var valueType := Deletion;
      ghost var es, r0 := iter.all, iter.At();
      ghost var cand: int := -1;
      while iter.Valid()
        invariant direction.Reverse? && iter.Inv() && iter.Placed() && iter.At() <= r0
        invariant valueType.Put? ==> savedKey.Some? && Candidate(es, sequence, iter.At(), cand, r0, savedKey, savedValue)
        invariant valueType.Deletion? ==> forall i :: iter.At() < i <= r0 ==> !Live(es, sequence, i)
        decreases iter.At() + 1
      {
        var e := iter.Current();
        if e.key.sequence <= sequence {
          if valueType.Put? && e.key.user < savedKey.value {
            break;
          }
          TakeVisible(es, sequence, iter.pos, valueType.Put?, cand, r0, savedKey, savedValue);
          valueType := e.key.kind;
          if valueType.Deletion? {
            savedKey := None;
            savedValue := "";
          } else {
            savedKey := Some(e.key.user);
            savedValue := e.value;
          }
          cand := iter.pos;
        } else {
          PassHidden(es, sequence, iter.pos, valueType.Put?, cand, r0, savedKey, savedValue);
        }
        iter.Prev();
      }
      if valueType.Deletion? {
        valid := false;
        savedKey := None;
        savedValue := "";
        direction := Forward;
      } else {
        valid := true;
        cur := cand;
        CandidateIsLive(es, sequence, iter.At(), cand, r0, savedKey, savedValue);
      }
    }

    /** Stops at the first visible key at or after `target`. */
    method Seek(target: UserKey)
      requires Inv()
      modifies this, iter
      ensures Inv()
      ensures valid ==> Position() < |Visible()| && Visible()[Position()].key.user >= target
      ensures forall p :: 0 <= p < (if valid then Position() else |Visible()|) && p < |Visible()| ==> Visible()[p].key.user < target
    {
      hide Merger.MergingIterator.Inv;
      ghost var es := iter.all;
      direction := Forward;
      savedValue := "";
      savedKey := Some(target);
      iter.Seek(SeekKey(target, sequence));
      ghost var from := iter.pos;
      if iter.Valid() {
        SkipNothing(es, sequence, from, savedKey);
        FindNextUserEntry(false, from);
      } else {
        valid := false;
      }
      SeekStops(es, sequence, target, from, if valid then cur else |es|);
    }

    method SeekToFirst()
      requires Inv()
      modifies this, iter
      ensures Inv()
      ensures valid <==> Visible() != []
      ensures valid ==> Position() == 0
    {
      hide Merger.MergingIterator.Inv;
      ghost var es := iter.all;
      direction := Forward;
      savedValue := "";
      iter.SeekToFirst();
      if iter.Valid() {
        SkipNothing(es, sequence, 0, savedKey);
        FindNextUserEntry(false, 0);
      } else {
        valid := false;
      }
      ViewPrefix(es, sequence, 0, if valid then cur else |es|);
      if valid {
        StandsOn(es, sequence, cur);
      }
    }

    method SeekToLast()
      requires Inv()
      modifies this, iter
      ensures Inv()
      ensures valid <==> Visible() != []
      ensures valid ==> Position() == |Visible()| - 1
    {
      hide Merger.MergingIterator.Inv;
      ghost var es := iter.all;
      direction := Reverse;
      savedValue := "";
      iter.SeekToLast();
      FindPrevUserEntry();
      OneStepBack(es, sequence, if valid then cur else -1, |es|);
    }
  }

  // ----- lemmas about positions -----

  /** In reverse the internal iterator stands before every entry that could matter to
      the current key. */
  ghost predicate JustBefore(es: seq<Entry>, s: nat, r: int, cur: int)
    requires 0 <= cur < |es|
  {
    -1 <= r < cur
    && (forall j :: r < j < cur ==> es[j].key.sequence > s)
    && (r >= 0 ==> es[r].key.user < es[cur].key.user)
  }

  /** The skip state hides exactly the entries ahead that are not live. */
  ghost predicate SkipsRightly(es: seq<Entry>, s: nat, pos: nat, from: nat, skipping: bool, skip: Option<UserKey>)
    requires skipping ==> skip.Some?
  {
    forall i :: pos <= i < |es| ==> SkipsAt(es, s, pos, from, skipping, skip, i)
  }

  ghost predicate SkipsAt(es: seq<Entry>, s: nat, pos: nat, from: nat, skipping: bool, skip: Option<UserKey>, i: nat)
    requires i < |es| && pos <= i && (skipping ==> skip.Some?)
  {
    var u := es[i].key.user;
    (forall j :: 0 <= j < pos && es[j].key.user == u && es[j].key.sequence <= s ==> skipping && u <= skip.value)
    && (skipping && from <= i && Live(es, s, i) ==> u > skip.value)
    && (i < from ==> es[i].key.sequence > s || (es[i].key.kind.Put? && skipping && u <= skip.value))
  }

  lemma SkipDeletion(es: seq<Entry>, s: nat, pos: nat, from: nat, skipping: bool, skip: Option<UserKey>)
    requires Sorted(es) && pos < |es| && (skipping ==> skip.Some?)
    requires SkipsRightly(es, s, pos, from, skipping, skip)
    requires es[pos].key.sequence <= s && es[pos].key.kind.Deletion?
    ensures SkipsRightly(es, s, pos + 1, from, true, Some(es[pos].key.user)) && from <= pos && !Live(es, s, pos)
  {
    assert SkipsAt(es, s, pos, from, skipping, skip, pos);
    var p, skip' := pos + 1, Some(es[pos].key.user);
    forall i | p <= i < |es| ensures SkipsAt(es, s, p, from, true, skip', i) {
      assert SkipsAt(es, s, pos, from, skipping, skip, i);
      assert Less(es[pos].key, es[i].key);
      assert forall j :: 0 <= j < pos ==> Less(es[j].key, es[pos].key);
    }
  }

  /** An entry passed over is not live, and the skip state stays right. */
  lemma SkipHidden(es: seq<Entry>, s: nat, pos: nat, from: nat, skipping: bool, skip: Option<UserKey>)
    requires Sorted(es) && pos < |es| && (skipping ==> skip.Some?)
    requires SkipsRightly(es, s, pos, from, skipping, skip)
    requires es[pos].key.sequence > s || (es[pos].key.kind.Put? && skipping && es[pos].key.user <= skip.value)
    ensures SkipsRightly(es, s, pos + 1, from, skipping, skip)
    ensures from <= pos ==> !Live(es, s, pos)
  {
    assert SkipsAt(es, s, pos, from, skipping, skip, pos);
    var p := pos + 1;
    forall i | p <= i < |es| ensures SkipsAt(es, s, p, from, skipping, skip, i) {
      assert SkipsAt(es, s, pos, from, skipping, skip, i);
    }
  }

  lemma Yields(es: seq<Entry>, s: nat, pos: nat, from: nat, skipping: bool, skip: Option<UserKey>)
    requires pos < |es| && (skipping ==> skip.Some?)
    requires SkipsRightly(es, s, pos, from, skipping, skip)
    requires es[pos].key.sequence <= s && es[pos].key.kind.Put? && !(skipping && es[pos].key.user <= skip.value)
    ensures from <= pos && Live(es, s, pos)
  {
    assert SkipsAt(es, s, pos, from, skipping, skip, pos);
  }

  /** Seek and SeekToFirst start with nothing to skip. */
  lemma SkipNothing(es: seq<Entry>, s: nat, pos: nat, skip: Option<UserKey>)
    requires forall i, j :: 0 <= j < pos <= i < |es| && es[j].key.user == es[i].key.user ==> es[j].key.sequence > s
    ensures SkipsRightly(es, s, pos, pos, false, skip)
  {
  }

  /** Next skips the entries of the current key, from the current entry or, after
      moving back, from just past where the internal iterator rests. */
  lemma SkipCurrent(es: seq<Entry>, s: nat, pos: nat, cur: int)
    requires Sorted(es) && Live(es, s, cur) && pos <= cur
    requires forall j :: pos <= j < cur ==> es[j].key.sequence > s
    ensures SkipsRightly(es, s, pos, cur + 1, true, Some(es[cur].key.user))
  {
    var from, skip := cur + 1, Some(es[cur].key.user);
    forall i | pos <= i < |es| ensures SkipsAt(es, s, pos, from, true, skip, i) {
      assert i < cur ==> Less(es[i].key, es[cur].key);
      assert cur < i ==> Less(es[cur].key, es[i].key);
      assert forall j :: 0 <= j < cur ==> Less(es[j].key, es[cur].key);
    }
  }

  ghost predicate Candidate(es: seq<Entry>, s: nat, r: int, cand: int, r0: int, key: Option<UserKey>, value: Value) {
    -1 <= r < cand <= r0 < |es|
    && es[cand].key.sequence <= s && es[cand].key.kind.Put?
    && key == Some(es[cand].key.user) && value == es[cand].value
    && (forall i :: r < i < cand ==> es[i].key.sequence > s)
    && forall i :: cand < i <= r0 ==> !Live(es, s, i)
  }

  /** A visible entry takes the place of the candidate; a deletion marker leaves none. */
  lemma TakeVisible(es: seq<Entry>, s: nat, r: nat, found: bool, cand: int, r0: int, key: Option<UserKey>, value: Value)
    requires Sorted(es) && r <= r0 < |es| && es[r].key.sequence <= s
    requires found ==> key.Some? && Candidate(es, s, r, cand, r0, key, value) && es[r].key.user >= key.value
    requires !found ==> forall i :: r < i <= r0 ==> !Live(es, s, i)
    ensures es[r].key.kind.Put? ==> Candidate(es, s, r - 1, r, r0, Some(es[r].key.user), es[r].value)
    ensures es[r].key.kind.Deletion? ==> forall i :: r - 1 < i <= r0 ==> !Live(es, s, i)
  {
    if found {
      assert Less(es[r].key, es[cand].key);
      assert !Live(es, s, cand);
    }
  }

  lemma PassHidden(es: seq<Entry>, s: nat, r: nat, found: bool, cand: int, r0: int, key: Option<UserKey>, value: Value)
    requires r <= r0 < |es| && es[r].key.sequence > s
    requires found ==> Candidate(es, s, r, cand, r0, key, value)
    requires !found ==> forall i :: r < i <= r0 ==> !Live(es, s, i)
    ensures if found then Candidate(es, s, r - 1, cand, r0, key, value) else forall i :: r - 1 < i <= r0 ==> !Live(es, s, i)
  {
  }

  lemma CandidateIsLive(es: seq<Entry>, s: nat, r: int, cand: int, r0: int, key: Option<UserKey>, value: Value)
    requires Sorted(es) && Candidate(es, s, r, cand, r0, key, value)
    requires r >= 0 ==> key.Some? && es[r].key.user < key.value
    ensures Live(es, s, cand) && 0 <= cand < |es| && JustBefore(es, s, r, cand) && cand <= r0
    ensures key == Some(es[cand].key.user) && value == es[cand].value
    ensures forall i :: cand < i <= r0 ==> !Live(es, s, i)
  {
    assert forall j :: 0 <= j < r ==> Less(es[j].key, es[r].key);
  }

  /** Nothing live between the internal position, in either direction, and the current entry. */
  lemma BeforeCurrent(es: seq<Entry>, s: nat, cur: int, r: int)
    requires 0 <= cur < |es| && Live(es, s, cur) && (r == cur || JustBefore(es, s, r, cur))
    ensures forall i :: r < i < cur ==> !Live(es, s, i)
    ensures JustBefore(es, s, r, cur) ==> -1 <= r < cur
  {
  }

  lemma StandsOn(es: seq<Entry>, s: nat, i: int)
    requires Live(es, s, i)
    ensures 0 <= i < |es|
    ensures |View(es, s, i)| < |View(es, s, |es|)| && View(es, s, |es|)[|View(es, s, i)|] == es[i]
  {
    ViewPrefix(es, s, i + 1, |es|);
  }

  /** The next live entry is one place further on. */
  lemma OneStep(es: seq<Entry>, s: nat, i: int, next: int)
    requires Live(es, s, i) && i < next <= |es| && (next < |es| ==> Live(es, s, next))
    requires forall j :: i < j < next ==> !Live(es, s, j)
    ensures |View(es, s, next)| == |View(es, s, i)| + 1
    ensures next < |es| <==> |View(es, s, i)| + 1 < |View(es, s, |es|)|
  {
    ViewPrefix(es, s, i + 1, next);
    if next < |es| {
      StandsOn(es, s, next);
    }
  }

  lemma OneStepBack(es: seq<Entry>, s: nat, prev: int, i: int)
    requires -1 <= prev < i <= |es| && (prev >= 0 ==> Live(es, s, prev))
    requires forall j :: prev < j < i ==> !Live(es, s, j)
    ensures prev >= 0 <==> |View(es, s, i)| > 0
    ensures prev >= 0 ==> |View(es, s, prev)| == |View(es, s, i)| - 1
  {
    ViewPrefix(es, s, prev + 1, i);
  }

  lemma SeekStops(es: seq<Entry>, s: nat, target: UserKey, from: nat, stop: nat)
    requires Sorted(es) && from <= stop <= |es|
    requires forall i :: 0 <= i < from ==> Less(es[i].key, SeekKey(target, s))
    requires forall i :: from <= i < |es| ==> !Less(es[i].key, SeekKey(target, s))
    requires forall i :: from <= i < stop ==> !Live(es, s, i)
    requires stop < |es| ==> Live(es, s, stop)
    ensures stop < |es| ==> |View(es, s, stop)| < |View(es, s, |es|)| && View(es, s, |es|)[|View(es, s, stop)|].key.user >= target
    ensures View(es, s, stop) <= View(es, s, |es|)
    ensures forall p :: 0 <= p < |View(es, s, stop)| ==> View(es, s, stop)[p].key.user < target
  {
    ViewPrefix(es, s, stop, |es|);
    if stop < |es| {
      StandsOn(es, s, stop);
    }
    forall p | 0 <= p < |View(es, s, stop)| ensures View(es, s, stop)[p].key.user < target {
      ViewMember(es, s, stop, View(es, s, stop)[p]);
    }
  }
}
