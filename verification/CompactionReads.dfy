/** What a compaction may and may not change about reads. `rest` stands for every
    entry of the database outside the compaction's input. */
module CompactionReads {
  import opened Store
  import opened CompactionWork

  ghost function Before(input: seq<Entry>, rest: set<Entry>): set<Entry> {
    Elements(input) + rest
  }

  ghost function After(c: Compaction, input: seq<Entry>, snap: nat, rest: set<Entry>): set<Entry> {
    Elements(Kept(c, input, snap, |input|)) + rest
  }

  lemma {:induction false} KeptMember(c: Compaction, input: seq<Entry>, snap: nat, n: nat, e: Entry)
    requires n <= |input|
    ensures e in Kept(c, input, snap, n) <==> exists i :: 0 <= i < n && input[i] == e && Survives(c, input, snap, i)
  {
    if n > 0 {
      KeptMember(c, input, snap, n - 1, e);
    }
  }

  /** Output files are in key order, as the table builder requires. */
  lemma {:induction false} KeptSorted(c: Compaction, input: seq<Entry>, snap: nat, n: nat)
    requires n <= |input| && Sorted(input)
    ensures Sorted(Kept(c, input, snap, n))
  {
    if n > 0 {
      KeptSorted(c, input, snap, n - 1);
      var p := Kept(c, input, snap, n - 1);
      forall i | 0 <= i < |p| ensures Less(p[i].key, input[n - 1].key) {
        KeptMember(c, input, snap, n - 1, p[i]);
      }
    }
  }

  /** Nothing is kept that no snapshot in use could tell apart or reach: of two entries kept for
      one user key some snapshot tells them apart, and a deletion marker that all snapshots see
      is kept only if a deeper file may hold its key. */
  lemma KeptIsLean(c: Compaction, input: seq<Entry>, snap: nat, e: Entry, d: Entry)
    requires Sorted(input) && e in Kept(c, input, snap, |input|) && d in Kept(c, input, snap, |input|)
    ensures e != d && e.key.user == d.key.user ==> e.key.sequence > snap || d.key.sequence > snap
    ensures e.key.kind.Deletion? && e.key.sequence <= snap ==>
      exists l, f :: c.level + 2 <= l < |c.files| && f in c.files[l] && f.smallest.user <= e.key.user <= f.largest.user
  {
    KeptMember(c, input, snap, |input|, e);
    KeptMember(c, input, snap, |input|, d);
    var i :| 0 <= i < |input| && input[i] == e && Survives(c, input, snap, i);
    var j :| 0 <= j < |input| && input[j] == d && Survives(c, input, snap, j);
    if e != d && e.key.user == d.key.user && e.key.sequence <= snap && d.key.sequence <= snap {
      BehindIsHidden(input, snap, e.key.user, if i < j then i else j, if i < j then j else i);
    }
    if e.key.kind.Deletion? && e.key.sequence <= snap {
      var l, k :| c.level + 2 <= l < |c.files| && 0 <= k < |c.files[l]| && InRange(c.files[l][k], e.key.user);
      assert c.files[l][k] in c.files[l];
    }
  }

  /** The only way a compaction can change a read: the newest entry of `k` at the
      oldest snapshot is an input deletion marker that no deeper file protects, and
      under it lies a value the compaction did not include. */
  ghost predicate Resurrects(c: Compaction, input: seq<Entry>, snap: nat, rest: set<Entry>, k: UserKey) {
    !Covered(c.files, c.level, k)
    && (exists t :: t in input && t.key.kind.Deletion? && Newest(Before(input, rest), k, snap, t))
    && Lookup(rest, k, snap).Found?
  }

  lemma KeptIsInput(c: Compaction, input: seq<Entry>, snap: nat, rest: set<Entry>)
    ensures After(c, input, snap, rest) <= Before(input, rest)
  {
    forall e | e in After(c, input, snap, rest) ensures e in Before(input, rest) {
      KeptMember(c, input, snap, |input|, e);
    }
  }

  lemma BehindIsHidden(input: seq<Entry>, snap: nat, k: UserKey, i: nat, j: nat)
    requires Sorted(input) && i < j < |input| && input[i].key.user == input[j].key.user == k && input[i].key.sequence <= snap
    ensures Hidden(input, snap, j)
  {
    assert Less(input[i].key, input[j].key);
    assert i < j - 1 ==> Less(input[i].key, input[j - 1].key) && Less(input[j - 1].key, input[j].key);
  }

  /** When the newest entry at `s` is itself dropped, it is an obsolete marker and no
      input entry of its key visible at `s` survives. */
  lemma NothingVisibleSurvives(c: Compaction, input: seq<Entry>, snap: nat, rest: set<Entry>, k: UserKey, s: nat, i: nat)
    requires Sorted(input) && DistinctSeqs(Before(input, rest)) && s >= snap
    requires i < |input| && Newest(Before(input, rest), k, s, input[i]) && !Survives(c, input, snap, i)
    ensures Obsolete(c, snap, input[i])
    ensures forall j :: 0 <= j < |input| && Visible(input[j], k, s) ==> !Survives(c, input, snap, j)
  {
    var t := input[i];
    assert forall j :: 0 <= j < i ==> input[j] in Before(input, rest) && Less(input[j].key, t.key);
    assert forall j :: 0 <= j < i ==> !Visible(input[j], k, s);
    assert !Hidden(input, snap, i);
    forall j | i < j < |input| && Visible(input[j], k, s) ensures Hidden(input, snap, j) {
      BehindIsHidden(input, snap, k, i, j);
    }
  }

  /** ... so only `rest` is left to read. */
  lemma ReadsFallThrough(c: Compaction, input: seq<Entry>, snap: nat, rest: set<Entry>, k: UserKey, s: nat, i: nat)
    requires Sorted(input) && DistinctSeqs(Before(input, rest)) && s >= snap
    requires i < |input| && Newest(Before(input, rest), k, s, input[i]) && !Survives(c, input, snap, i)
    ensures Obsolete(c, snap, input[i]) && Newest(Before(input, rest), k, snap, input[i])
    ensures Lookup(After(c, input, snap, rest), k, s) == Lookup(rest, k, snap)
  {
    var after := After(c, input, snap, rest);
    NothingVisibleSurvives(c, input, snap, rest, k, s, i);
    assert forall e :: Visible(e, k, snap) ==> Visible(e, k, s);
    forall e | e in after && Visible(e, k, s) ensures e in rest && Visible(e, k, snap) {
      KeptMember(c, input, snap, |input|, e);
      assert e in Before(input, rest);
    }
    SameVisible(after, rest, k, s, snap);
  }

  /** Reads of one key at one snapshot, before and after. */
  lemma ReadUnchanged(c: Compaction, input: seq<Entry>, snap: nat, rest: set<Entry>, k: UserKey, s: nat)
    requires Sorted(input) && DistinctSeqs(Before(input, rest)) && s >= snap
    requires !Resurrects(c, input, snap, rest, k)
    ensures Lookup(After(c, input, snap, rest), k, s) == Lookup(Before(input, rest), k, s)
  {
    var all, after := Before(input, rest), After(c, input, snap, rest);
    KeptIsInput(c, input, snap, rest);
    if n :| Newest(all, k, s, n) {
      LookupIs(all, k, s, n);
      if n in after {
        assert Newest(after, k, s, n);
        LookupIs(after, k, s, n);
      } else {
        var i :| 0 <= i < |input| && input[i] == n;
        KeptMember(c, input, snap, |input|, n);
        ReadsFallThrough(c, input, snap, rest, k, s, i);
      }
    } else {
      if n :| Newest(after, k, s, n) {
        var m := NewestExists(all, k, s, n);
        assert false;
      }
    }
  }

  /** Every read at every snapshot still in use is unchanged, exactly when no user key
      has a dropped deletion marker standing over a value left outside the input. */
  lemma CompactionPreservesReads(c: Compaction, input: seq<Entry>, snap: nat, rest: set<Entry>)
    requires Sorted(input) && DistinctSeqs(Before(input, rest))
    ensures (forall k, s: nat :: s >= snap ==>
               Lookup(After(c, input, snap, rest), k, s) == Lookup(Before(input, rest), k, s))
       <==> (forall k :: !Resurrects(c, input, snap, rest, k))
  {
    forall k, s: nat | s >= snap && !Resurrects(c, input, snap, rest, k)
      ensures Lookup(After(c, input, snap, rest), k, s) == Lookup(Before(input, rest), k, s)
    {
      ReadUnchanged(c, input, snap, rest, k, s);
    }
    forall k | Resurrects(c, input, snap, rest, k)
      ensures Lookup(After(c, input, snap, rest), k, snap) != Lookup(Before(input, rest), k, snap)
    {
      var t :| t in input && t.key.kind.Deletion? && Newest(Before(input, rest), k, snap, t);
      var i :| 0 <= i < |input| && input[i] == t;
      LookupIs(Before(input, rest), k, snap, t);
      ReadsFallThrough(c, input, snap, rest, k, snap, i);
    }
  }

  /** A user key is safe when whatever else holds entries of it is either newer than the input's
      or in the levels IsBaseLevelForKey looks at. */
  lemma ClosedKey(c: Compaction, input: seq<Entry>, snap: nat, newer: set<Entry>, deeper: set<Entry>, k: UserKey)
    requires forall e, i :: e in newer && i in input && e.key.user == i.key.user == k ==> e.key.sequence > i.key.sequence
    requires forall e :: e in deeper && e.key.user == k ==> Covered(c.files, c.level, k)
    ensures !Resurrects(c, input, snap, newer + deeper, k)
  {
    var rest := newer + deeper;
    assert forall e, t :: Visible(e, k, snap) && e in newer && t in input && t.key.user == k ==>
                          e in Before(input, rest) && e.key.sequence > t.key.sequence;
  }

  /** The sufficient condition the design relies on, for every user key. */
  lemma ClosedInputsPreserveReads(c: Compaction, input: seq<Entry>, snap: nat, newer: set<Entry>, deeper: set<Entry>)
    requires Sorted(input) && DistinctSeqs(Before(input, newer + deeper))
    requires forall e, i :: e in newer && i in input && e.key.user == i.key.user ==> e.key.sequence > i.key.sequence
    requires forall e :: e in deeper ==> Covered(c.files, c.level, e.key.user)
    ensures forall k, s: nat :: s >= snap ==>
              Lookup(After(c, input, snap, newer + deeper), k, s) == Lookup(Before(input, newer + deeper), k, s)
  {
    forall k ensures !Resurrects(c, input, snap, newer + deeper, k) {
      ClosedKey(c, input, snap, newer, deeper, k);
    }
    CompactionPreservesReads(c, input, snap, newer + deeper);
  }
}
