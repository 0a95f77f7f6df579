/** Internal keys, their order, and the specification every read is measured against:
    a flat set of entries in which a read at a snapshot finds the newest entry not
    later than the snapshot. */
module Store {

  /** A user key, represented by its place in the comparator's order. A comparator
      orders byte strings, which are countable, and every countable total order embeds
      in the reals; nothing here uses more than that order. */
  type UserKey = real

  type Value = string

  /** kMaxSequenceNumber: sequence numbers use 56 bits. */
  const MAX_SEQUENCE: nat := 0xFF_FFFF_FFFF_FFFF

  datatype Kind = Deletion | Put

  datatype InternalKey = InternalKey(user: UserKey, sequence: nat, kind: Kind) {
    /** The packed trailer of an internal key: sequence number, then type. */
    function Tag(): nat {
      sequence * 256 + if kind.Put? then 1 else 0
    }
  }

  datatype Entry = Entry(key: InternalKey, value: Value)

  /** Increasing user key, then decreasing sequence number, then decreasing type. */
  predicate Less(a: InternalKey, b: InternalKey) {
    a.user < b.user || (a.user == b.user && a.Tag() > b.Tag())
  }

  /** The first internal key at which an entry of `user` visible at `s` can stand. */
  function SeekKey(user: UserKey, s: nat): InternalKey {
    InternalKey(user, s, Put)
  }

  ghost predicate Sorted(es: seq<Entry>) {
    forall i, j :: 0 <= i < j < |es| ==> Less(es[i].key, es[j].key)
  }

  // ----- the flat store -----

  ghost predicate Visible(e: Entry, k: UserKey, s: nat) {
    e.key.user == k && e.key.sequence <= s
  }

  /** No two entries of one user key carry the same sequence number. */
  ghost predicate DistinctSeqs(es: set<Entry>) {
    forall e, f :: e in es && f in es && e.key.user == f.key.user && e.key.sequence == f.key.sequence ==> e == f
  }

  ghost predicate Newest(es: set<Entry>, k: UserKey, s: nat, e: Entry) {
    e in es && Visible(e, k, s) && forall f :: f in es && Visible(f, k, s) ==> f.key.sequence <= e.key.sequence
  }

  datatype ReadResult = Found(value: Value) | NotFound

  function Answer(e: Entry): ReadResult {
    if e.key.kind.Put? then Found(e.value) else NotFound
  }

  /** What a read of `k` at snapshot `s` must return. */
  ghost function Lookup(es: set<Entry>, k: UserKey, s: nat): ReadResult {
    if exists e :: Newest(es, k, s, e) then
      var e :| Newest(es, k, s, e);
      Answer(e)
    else NotFound
  }

  lemma LookupIs(es: set<Entry>, k: UserKey, s: nat, e: Entry)
    requires DistinctSeqs(es) && Newest(es, k, s, e)
    ensures Lookup(es, k, s) == Answer(e)
  {
    assert exists f :: Newest(es, k, s, f);
    assert Visible(e, k, s);
    forall f | Newest(es, k, s, f) ensures f == e {
      assert Visible(f, k, s);
    }
  }

  /** Two stores with the same visible entries of `k` answer alike. */
  lemma SameVisible(es: set<Entry>, fs: set<Entry>, k: UserKey, s: nat, s': nat)
    requires DistinctSeqs(es) || DistinctSeqs(fs)
    requires forall e :: e in es && Visible(e, k, s) <==> e in fs && Visible(e, k, s')
    ensures Lookup(es, k, s) == Lookup(fs, k, s')
  {
    if e :| Newest(es, k, s, e) {
      assert Newest(fs, k, s', e);
      assert forall e' :: Newest(es, k, s, e') || Newest(fs, k, s', e') ==> e' == e;
    } else if e :| Newest(fs, k, s', e) {
      assert Newest(es, k, s, e);
    }
  }

  /** A finite store with a visible entry has a newest one. */
  lemma {:induction false} NewestExists(es: set<Entry>, k: UserKey, s: nat, e: Entry) returns (n: Entry)
    requires e in es && Visible(e, k, s)
    ensures Newest(es, k, s, n)
    decreases es
  {
    if f :| f in es && Visible(f, k, s) && f.key.sequence > e.key.sequence {
      n := NewestExists(es - {e}, k, s, f);
      assert Newest(es, k, s, n);
    } else {
      n := e;
    }
  }

  // ----- files and levels -----

  datatype File = File(number: nat, size: nat, smallest: InternalKey, largest: InternalKey, entries: seq<Entry>)

  /** Metadata and contents of a table agree. */
  ghost predicate GoodFile(f: File) {
    |f.entries| > 0 && Sorted(f.entries)
    && f.smallest == f.entries[0].key && f.largest == f.entries[|f.entries| - 1].key
  }

  /** A level below the first: tables in key order, no two overlapping. */
  ghost predicate SortedLevel(fs: seq<File>) {
    (forall i :: 0 <= i < |fs| ==> GoodFile(fs[i]))
    && forall i, j :: 0 <= i < j < |fs| ==> Less(fs[i].largest, fs[j].smallest)
  }

  ghost function Contents(fs: seq<File>): set<Entry> {
    set f, e | f in fs && e in f.entries :: e
  }

  ghost function Elements(es: seq<Entry>): set<Entry> {
    set e | e in es
  }
}
