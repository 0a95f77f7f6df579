/** One shard of the LRU cache: a hash table, two rings of handles, reference counts. */
module LruCache {
  import opened HandleTable

  // ----- rings -----

  ghost function Elems(s: seq<Handle>): set<Handle> {
    set h | h in s
  }

  /** The ring's nodes: its head, then the handles in order. */
  function Node(head: Handle, s: seq<Handle>, i: nat): Handle
    requires i <= |s|
  {
    if i == 0 then head else s[i - 1]
  }

  function Succ(head: Handle, s: seq<Handle>, i: nat): Handle
    requires i <= |s|
  {
    if i < |s| then s[i] else head
  }

  function Pred(head: Handle, s: seq<Handle>, i: nat): Handle
    requires i <= |s|
  {
    if i == 0 then if s == [] then head else s[|s| - 1] else if i == 1 then head else s[i - 2]
  }

  /** A circular doubly linked list with a dummy head. */
  ghost predicate Ring(head: Handle, s: seq<Handle>)
    reads head`next, head`prev, s`next, s`prev
  {
    && head !in s && AllDifferent(s)
    && (forall i {:trigger Succ(head, s, i)} :: 0 <= i <= |s| ==> Node(head, s, i).next == Succ(head, s, i))
    && (forall i {:trigger Pred(head, s, i)} :: 0 <= i <= |s| ==> Node(head, s, i).prev == Pred(head, s, i))
  }

  function Cut(s: seq<Handle>, k: nat): seq<Handle>
    requires k < |s|
  {
    s[..k] + s[k + 1..]
  }

  lemma CutNodes(head: Handle, s: seq<Handle>, k: nat, i: nat)
    requires k < |s| && i <= |s| - 1
    ensures
      var t, j := Cut(s, k), if i <= k then i else i + 1;
      && Node(head, t, i) == Node(head, s, j)
      && Succ(head, t, i) == (if i == k then Succ(head, s, k + 1) else Succ(head, s, j))
      && Pred(head, t, i) == (if j == 0 then if k == |s| - 1 then Pred(head, s, k + 1) else Pred(head, s, 0)
                              else if j == k + 2 then Node(head, s, k) else Pred(head, s, j))
  {
  }

  lemma CutElems(s: seq<Handle>, k: nat)
    requires AllDifferent(s) && k < |s|
    ensures AllDifferent(Cut(s, k)) && Elems(Cut(s, k)) == Elems(s) - {s[k]}
  {
    var t := Cut(s, k);
    forall h ensures h in t <==> h in s && h != s[k] {
      if h in s && h != s[k] {
        var i :| 0 <= i < |s| && s[i] == h;
        assert t[if i < k then i else i - 1] == h;
      }
      if h in t {
        var i :| 0 <= i < |t| && t[i] == h;
        assert h == s[if i < k then i else i + 1];
      }
    }
  }

  ghost predicate TwoRings(a: Handle, s: seq<Handle>, b: Handle, t: seq<Handle>)
    reads a`next, a`prev, s`next, s`prev, b`next, b`prev, t`next, t`prev
  {
    Ring(a, s) && Ring(b, t) && a != b && a !in t && b !in s && Elems(s) !! Elems(t)
  }

  lemma NoElems()
    ensures Elems([]) == {}
  {
  }

  lemma OneMoreElem(s: seq<Handle>, e: Handle)
    ensures Elems(s + [e]) == Elems(s) + {e}
  {
  }

  lemma Apart(s: seq<Handle>, t: seq<Handle>)
    requires Elems(s) !! Elems(t)
    ensures forall h :: h in t ==> h !in s
  {
    forall h | h in t ensures h !in s {
      assert h in Elems(t);
    }
  }

  /** Takes a handle out of its ring; the other ring is not touched. */
  method LRU_Remove(e: Handle, ghost head: Handle, ghost s: seq<Handle>, ghost k: nat, ghost other: Handle, ghost t: seq<Handle>)
    requires TwoRings(head, s, other, t) && k < |s| && s[k] == e
    modifies head`next, head`prev, s`next, s`prev
    ensures TwoRings(head, Cut(s, k), other, t) && Elems(Cut(s, k)) == Elems(s) - {e}
  {
    Apart(s, t);
    Unlink(e, head, s, k);
    assert old(Ring(other, t));
    forall i | 0 <= i <= |t| ensures Node(other, t, i).next == Succ(other, t, i) && Node(other, t, i).prev == Pred(other, t, i) {
      assert i > 0 ==> t[i - 1] in t;
      assert old(Node(other, t, i).next == Succ(other, t, i) && Node(other, t, i).prev == Pred(other, t, i));
    }
  }

  method Unlink(e: Handle, ghost head: Handle, ghost s: seq<Handle>, ghost k: nat)
    requires Ring(head, s) && k < |s| && s[k] == e
    modifies head`next, head`prev, s`next, s`prev
    ensures Ring(head, Cut(s, k)) && Elems(Cut(s, k)) == Elems(s) - {e}
  {
    ghost var t := Cut(s, k);
    CutElems(s, k);
    assert e == Node(head, s, k + 1) && e.next == Succ(head, s, k + 1) && e.prev == Pred(head, s, k + 1) == Node(head, s, k);
    ghost var after := if k + 1 < |s| then k + 2 else 0;
    assert e.next == Node(head, s, after);
    e.next.prev := e.prev;
    e.prev.next := e.next;
    forall i | 0 <= i <= |t| ensures Node(head, t, i).next == Succ(head, t, i) && Node(head, t, i).prev == Pred(head, t, i) {
      CutNodes(head, s, k, i);
      ghost var j := if i <= k then i else i + 1;
      NodesDiffer(head, s, j, k);
      NodesDiffer(head, s, j, after);
      assert old(Node(head, s, j).next) == Succ(head, s, j) && old(Node(head, s, j).prev) == Pred(head, s, j);
    }
  }

  lemma NodesDiffer(head: Handle, s: seq<Handle>, i: nat, j: nat)
    requires head !in s && AllDifferent(s) && i <= |s| && j <= |s|
    ensures Node(head, s, i) == Node(head, s, j) <==> i == j
  {
  }

  /** The newest place is just before the head; the other ring is not touched. */
  method LRU_Append(list: Handle, e: Handle, ghost s: seq<Handle>, ghost other: Handle, ghost t: seq<Handle>)
    requires TwoRings(list, s, other, t) && e != list && e !in s && e != other && e !in t
    modifies list`next, list`prev, s`next, s`prev, e`next, e`prev
    ensures TwoRings(list, s + [e], other, t) && Elems(s + [e]) == Elems(s) + {e}
  {
    Apart(s, t);
    Link(list, e, s);
    assert old(Ring(other, t));
    forall i | 0 <= i <= |t| ensures Node(other, t, i).next == Succ(other, t, i) && Node(other, t, i).prev == Pred(other, t, i) {
      assert i > 0 ==> t[i - 1] in t;
      assert old(Node(other, t, i).next == Succ(other, t, i) && Node(other, t, i).prev == Pred(other, t, i));
    }
  }

  method Link(list: Handle, e: Handle, ghost s: seq<Handle>)
    requires Ring(list, s) && e != list && e !in s
    modifies list`next, list`prev, s`next, s`prev, e`next, e`prev
    ensures Ring(list, s + [e]) && Elems(s + [e]) == Elems(s) + {e}
  {
    ghost var t, n := s + [e], |s|;
    e.next := list;
    assert old(Node(list, s, 0).prev) == Pred(list, s, 0) == Node(list, s, n);
    e.prev := list.prev;
    e.prev.next := e;
    e.next.prev := e;
    forall i | 0 <= i <= |t| ensures Node(list, t, i).next == Succ(list, t, i) && Node(list, t, i).prev == Pred(list, t, i) {
      if i <= n {
        NodesDiffer(list, s, i, n);
        NodesDiffer(list, s, i, 0);
        assert Node(list, t, i) == Node(list, s, i);
        assert old(Node(list, s, i).next) == Succ(list, s, i) && old(Node(list, s, i).prev) == Pred(list, s, i);
      }
    }
  }

  // ----- lists of handles -----

  ghost function Without(s: seq<Handle>, e: Handle): seq<Handle> {
    if s == [] then [] else if s[0] == e then s[1..] else [s[0]] + Without(s[1..], e)
  }

  ghost function Charge(s: seq<Handle>): nat {
    if s == [] then 0 else s[0].charge + Charge(s[1..])
  }

  /** Where an element stands. */
  lemma {:induction false} Place(s: seq<Handle>, e: Handle) returns (k: nat)
    requires e in s && AllDifferent(s)
    ensures k < |s| && s[k] == e && Without(s, e) == Cut(s, k) && Charge(s) == Charge(Cut(s, k)) + e.charge
  {
    if s[0] == e {
      k := 0;
      assert Cut(s, 0) == s[1..];
    } else {
      k := Place(s[1..], e);
      assert Cut(s, k + 1) == [s[0]] + Cut(s[1..], k);
      assert Cut(s, k + 1)[1..] == Cut(s[1..], k);
      k := k + 1;
    }
  }

  lemma {:induction false} ChargeAppend(s: seq<Handle>, e: Handle)
    ensures Charge(s + [e]) == Charge(s) + e.charge
  {
    if s != [] {
      ChargeAppend(s[1..], e);
      assert (s + [e])[1..] == s[1..] + [e];
    }
  }

  lemma OtherRing(s: seq<Handle>, t: seq<Handle>, e: Handle)
    requires AllDifferent(s) && e in s && Elems(s) !! Elems(t)
    ensures (forall h :: h in t ==> h !in s) && (forall h :: h in Without(s, e) <==> h in s && h != e)
  {
    var k := Place(s, e);
    CutElems(s, k);
    assert forall h :: h in t ==> h in Elems(t);
    assert forall h :: h in s ==> h in Elems(s);
    assert forall h :: h in Without(s, e) <==> h in Elems(Cut(s, k));
  }

  /** From one ring to the newest place of another. */
  method MoveTo(e: Handle, ghost from: Handle, ghost s: seq<Handle>, list: Handle, ghost t: seq<Handle>)
    requires TwoRings(from, s, list, t) && e in s
    modifies from`next, from`prev, s`next, s`prev, list`next, list`prev, t`next, t`prev
    ensures TwoRings(from, Without(s, e), list, t + [e])
  {
    OtherRing(s, t, e);
    ghost var k := PlaceIn(from, s, e);
    assert e !in t && e != list && e != from;
    hide Ring, Without, AllDifferent, Cut;
    LRU_Remove(e, from, s, k, list, t);
    LRU_Append(list, e, t, from, Without(s, e));
  }

  /** Out of one ring; a handle is not on both. */
  method TakeOut(e: Handle, ghost head: Handle, ghost s: seq<Handle>, ghost other: Handle, ghost t: seq<Handle>)
    requires TwoRings(head, s, other, t) && e in s
    modifies head`next, head`prev, s`next, s`prev
    ensures TwoRings(head, Without(s, e), other, Without(t, e)) && TwoRings(other, Without(t, e), head, Without(s, e))
    ensures Without(t, e) == t && forall h :: h in Without(s, e) ==> h in s
  {
    OtherRing(s, t, e);
    ghost var k := PlaceIn(head, s, e);
    assert e !in t;
    WithoutAbsent(t, e);
    hide Ring, Without, AllDifferent, Cut;
    LRU_Remove(e, head, s, k, other, t);
  }

  /** The two lists share out the members: unused ones in one, used ones in the other. */
  ghost predicate Shared(s: seq<Handle>, t: seq<Handle>, clients: multiset<Handle>, members: set<Handle>) {
    && Elems(s) !! Elems(t) && members == Elems(s) + Elems(t)
    && (forall h :: h in Elems(s) ==> clients[h] == 0)
    && (forall h :: h in Elems(t) ==> clients[h] > 0)
  }

  /** ... when `e` is on the second list whether it is used or not. */
  ghost predicate SharedBut(s: seq<Handle>, t: seq<Handle>, clients: multiset<Handle>, members: set<Handle>, e: Handle) {
    && Elems(s) !! Elems(t) && members == Elems(s) + Elems(t) && e !in Elems(s)
    && (forall h :: h in Elems(s) ==> clients[h] == 0)
    && (forall h :: h in Elems(t) && h != e ==> clients[h] > 0)
  }

  lemma MoveLists(s: seq<Handle>, t: seq<Handle>, e: Handle)
    requires AllDifferent(s) && e in s && Elems(s) !! Elems(t)
    ensures Elems(Without(s, e)) == Elems(s) - {e} && Elems(t + [e]) == Elems(t) + {e}
    ensures Charge(Without(s, e)) + Charge(t + [e]) == Charge(s) + Charge(t)
  {
    var k := Place(s, e);
    CutElems(s, k);
    ChargeAppend(t, e);
  }

  lemma {:induction false} WithoutAbsent(s: seq<Handle>, e: Handle)
    requires e !in s
    ensures Without(s, e) == s
  {
    if s != [] {
      WithoutAbsent(s[1..], e);
    }
  }

  lemma SharedDrop(s: seq<Handle>, t: seq<Handle>, clients: multiset<Handle>, members: set<Handle>, e: Handle)
    requires Shared(s, t, clients, members) && AllDifferent(s) && AllDifferent(t) && e in members
    ensures e in s || e in t
    ensures SharedBut(Without(s, e), Without(t, e), clients, members - {e}, e)
    ensures Shared(Without(s, e), Without(t, e), clients, members - {e})
    ensures Charge(Without(s, e)) + Charge(Without(t, e)) + e.charge == Charge(s) + Charge(t)
    ensures Without(s, e) == s || Without(t, e) == t
  {
    assert e in Elems(s) || e in Elems(t);
    if e in s {
      assert e !in Elems(t);
      WithoutAbsent(t, e);
      MoveLists(s, t, e);
      var k := Place(s, e);
    } else {
      WithoutAbsent(s, e);
      MoveLists(t, s, e);
      var k := Place(t, e);
    }
  }

  lemma SharedAdd(s: seq<Handle>, t: seq<Handle>, clients: multiset<Handle>, members: set<Handle>, e: Handle)
    requires Shared(s, t, clients, members) && clients[e] == 0 && e !in members
    ensures Shared(s, t + [e], clients + multiset{e}, members + {e}) && Charge(t + [e]) == Charge(t) + e.charge
    ensures Shared(s, t, clients + multiset{e}, members)
    ensures e !in s && e !in t
  {
    ChargeAppend(t, e);
    assert Elems(t + [e]) == Elems(t) + {e};
    assert forall h :: h in s || h in t ==> h in members;
  }

  lemma SharedRelease(s: seq<Handle>, t: seq<Handle>, clients: multiset<Handle>, members: set<Handle>, e: Handle)
    requires Shared(s, t, clients, members) && clients[e] > 0
    ensures SharedBut(s, t, clients - multiset{e}, members, e)
  {
  }

  lemma SharedRef(s: seq<Handle>, t: seq<Handle>, clients: multiset<Handle>, members: set<Handle>, e: Handle)
    requires Shared(s, t, clients, members) && e in members && AllDifferent(s)
    ensures (clients[e] == 0 <==> e in s) && (e in s || e in t)
    ensures if clients[e] == 0 then Shared(Without(s, e), t + [e], clients + multiset{e}, members) else Shared(s, t, clients + multiset{e}, members)
  {
    assert e in Elems(s) || e in Elems(t);
    if e in s {
      MoveLists(s, t, e);
    }
  }

  lemma SharedUnref(s: seq<Handle>, t: seq<Handle>, clients: multiset<Handle>, members: set<Handle>, e: Handle)
    requires SharedBut(s, t, clients, members, e) && AllDifferent(t)
    ensures e in members <==> e in t
    ensures if e in members && clients[e] == 0 then Shared(s + [e], Without(t, e), clients, members) else Shared(s, t, clients, members)
  {
    assert e in members <==> e in Elems(t);
    if e in t && clients[e] == 0 {
      MoveLists(t, s, e);
    }
  }

  class Cache {
    const table: Table
    const lru: Handle
    const inUse: Handle
    var capacity: nat
    var usage: nat
    /** What the rings hold, oldest first. */
    ghost var lruSeq: seq<Handle>
    ghost var inUseSeq: seq<Handle>
    /** Every handle ever made, and the references clients hold. */
    ghost var all: set<Handle>
    ghost var clients: multiset<Handle>

    /** Reference counts, cache membership and the deleter's record of one handle. */
    ghost predicate Counted(h: Handle, members: set<Handle>)
      reads this`clients, h`refs, h`inCache, h`deleted
    {
      && h.refs == clients[h] + (if h.inCache then 1 else 0)
      && (h.inCache <==> h in members)
      && h.deleted == if h.refs == 0 then 1 else 0
    }

    ghost predicate AllCounted(members: set<Handle>)
      reads this`clients, this`all, all`refs, all`inCache, all`deleted
    {
      forall h :: h in all ==> Counted(h, members)
    }

    /** The rings run through the two lists. */
    ghost predicate Linked()
      reads this`lruSeq, this`inUseSeq, this`all, lru`next, lru`prev, inUse`next, inUse`prev, all`next, all`prev
    {
      && lru !in all && inUse !in all
      && (forall h :: h in lruSeq ==> h in all) && (forall h :: h in inUseSeq ==> h in all)
      && TwoRings(lru, lruSeq, inUse, inUseSeq)
    }

    ghost predicate Inv(members: set<Handle>)
      reads this, lru`next, lru`prev, inUse`next, inUse`prev, all`next, all`prev, all`refs, all`inCache, all`deleted
    {
      && (forall h :: h in clients ==> h in all)
      && Linked() && Shared(lruSeq, inUseSeq, clients, members) && AllCounted(members)
      && usage == Charge(lruSeq) + Charge(inUseSeq)
    }

    ghost predicate Valid()
      reads this, table, table.list, table.Members()`nextHash, lru`next, lru`prev, inUse`next, inUse`prev
      reads all`next, all`prev, all`refs, all`inCache, all`deleted
    {
      table.Valid() && Inv(table.Members())
    }

    constructor (capacity: nat)
      ensures Valid() && fresh(table) && fresh(table.list) && fresh(lru) && fresh(inUse)
      ensures table.Members() == {} && clients == multiset{} && this.capacity == capacity && all == {}
    {
      this.capacity, usage := capacity, 0;
      table := new Table();
      var a := new Handle([], 0, 0);
      var b := new Handle([], 0, 0);
      a.next, a.prev, b.next, b.prev := a, a, b, b;
      lru, inUse := a, b;
      lruSeq, inUseSeq, all, clients := [], [], {}, multiset{};
    }

    /** As Inv, but `e` carries one reference too many, and if cached is still on the in-use ring. */
    ghost predicate Over(members: set<Handle>, e: Handle)
      reads this, lru`next, lru`prev, inUse`next, inUse`prev, all`next, all`prev, all`refs, all`inCache, all`deleted
    {
      && (forall h :: h in clients ==> h in all) && e in all
      && Linked() && SharedBut(lruSeq, inUseSeq, clients, members, e)
      && (forall h :: h in all && h != e ==> Counted(h, members))
      && e.refs == clients[e] + (if e.inCache then 1 else 0) + 1 && (e.inCache <==> e in members) && e.deleted == 0
      && usage == Charge(lruSeq) + Charge(inUseSeq)
    }

    lemma OnRing(e: Handle, s: seq<Handle>, t: seq<Handle>)
      requires Linked() && ((s == lruSeq && t == inUseSeq) || (s == inUseSeq && t == lruSeq)) && e in s
      ensures AllDifferent(s) && Elems(s) !! Elems(t)
      ensures Elems(Without(s, e)) == Elems(s) - {e} && Elems(t + [e]) == Elems(t) + {e}
      ensures Charge(Without(s, e)) + Charge(t + [e]) == Charge(s) + Charge(t)
      ensures (forall h :: h in Without(s, e) ==> h in all) && forall h :: h in t + [e] ==> h in all
    {
      MoveLists(s, t, e);
      forall h | h in Without(s, e) ensures h in all {
        assert h in Elems(Without(s, e));
        assert h in Elems(s);
      }
    }

    method ToInUse(e: Handle)
      requires Linked() && e in lruSeq
      modifies this`lruSeq, this`inUseSeq, lru`next, lru`prev, inUse`next, inUse`prev, all`next, all`prev
      ensures Linked() && lruSeq == Without(old(lruSeq), e) && inUseSeq == old(inUseSeq) + [e]
      ensures Charge(lruSeq) + Charge(inUseSeq) == old(Charge(lruSeq) + Charge(inUseSeq))
    {
      hide Ring, Charge, Without, AllDifferent, Elems;
      OnRing(e, lruSeq, inUseSeq);
      MoveTo(e, lru, lruSeq, inUse, inUseSeq);
      lruSeq, inUseSeq := Without(lruSeq, e), inUseSeq + [e];
    }

    method ToLru(e: Handle)
      requires Linked() && e in inUseSeq
      modifies this`lruSeq, this`inUseSeq, lru`next, lru`prev, inUse`next, inUse`prev, all`next, all`prev
      ensures Linked() && inUseSeq == Without(old(inUseSeq), e) && lruSeq == old(lruSeq) + [e]
      ensures Charge(lruSeq) + Charge(inUseSeq) == old(Charge(lruSeq) + Charge(inUseSeq))
    {
      hide Ring, Charge, Without, AllDifferent, Elems;
      OnRing(e, inUseSeq, lruSeq);
      MoveTo(e, inUse, inUseSeq, lru, lruSeq);
      lruSeq, inUseSeq := lruSeq + [e], Without(inUseSeq, e);
    }

    lemma Differ()
      requires Linked()
      ensures AllDifferent(lruSeq) && AllDifferent(inUseSeq)
      ensures forall h :: h in lruSeq || h in inUseSeq ==> h in all
    {
    }

    method Ref(e: Handle, ghost members: set<Handle>)
      requires Inv(members) && e in members
      modifies this`lruSeq, this`inUseSeq, this`clients, e`refs, lru`next, lru`prev, inUse`next, inUse`prev, all`next, all`prev
      ensures Inv(members) && clients == old(clients) + multiset{e}
      ensures lruSeq == (if old(clients[e]) == 0 then Without(old(lruSeq), e) else old(lruSeq))
      ensures inUseSeq == (if old(clients[e]) == 0 then old(inUseSeq) + [e] else old(inUseSeq))
    {
      hide Linked, Charge, Without, AllDifferent, Shared, Elems;
      Differ();
      SharedRef(lruSeq, inUseSeq, clients, members, e);
      assert Counted(e, members);
      if e.refs == 1 && e.inCache {
        ToInUse(e);
      }
      AddClient(e, members);
    }

    method AddClient(e: Handle, ghost members: set<Handle>)
      requires (forall h :: h in clients ==> h in all) && e in all && e in members && Linked() && AllCounted(members)
      requires Shared(lruSeq, inUseSeq, clients + multiset{e}, members) && usage == Charge(lruSeq) + Charge(inUseSeq)
      modifies this`clients, e`refs
      ensures Inv(members) && clients == old(clients) + multiset{e}
    {
      hide Linked, Charge, Shared;
      assert Counted(e, members);
      e.refs := e.refs + 1;
      clients := clients + multiset{e};
      assert Linked() by { assert old(Linked()); }
      forall h | h in all ensures Counted(h, members) {
        assert old(Counted(h, members));
      }
    }

    /** The deleter runs exactly when the last reference goes. */
    method Unref(e: Handle, ghost members: set<Handle>)
      requires Over(members, e)
      modifies this`lruSeq, this`inUseSeq, e`refs, e`deleted, lru`next, lru`prev, inUse`next, inUse`prev, all`next, all`prev
      ensures Inv(members)
      ensures if e in members && clients[e] == 0 then lruSeq == old(lruSeq) + [e] && inUseSeq == Without(old(inUseSeq), e)
              else lruSeq == old(lruSeq) && inUseSeq == old(inUseSeq)
    {
      hide Linked, Charge, Without, AllDifferent, Shared, SharedBut, Elems;
      Differ();
      SharedUnref(lruSeq, inUseSeq, clients, members, e);
      e.refs := e.refs - 1;
      assert Linked() by { assert old(Linked()); }
      if e.refs == 0 {
        label Last:
        e.deleted := e.deleted + 1;
        assert Linked() by { assert old@Last(Linked()); }
      } else if e.inCache && e.refs == 1 {
        ToLru(e);
      }
      forall h | h in all ensures Counted(h, members) {
        assert h != e ==> old(Counted(h, members));
      }
    }

    /** LRU_Remove, whichever ring the handle is on. */
    method Detach(e: Handle)
      requires Linked() && (e in lruSeq || e in inUseSeq)
      modifies this`lruSeq, this`inUseSeq, lru`next, lru`prev, inUse`next, inUse`prev, all`next, all`prev
      ensures Linked() && lruSeq == Without(old(lruSeq), e) && inUseSeq == Without(old(inUseSeq), e)
    {
      hide Ring, Without, AllDifferent, Elems;
      ghost var head, s, other, t := lru, lruSeq, inUse, inUseSeq;
      if e !in lruSeq {
        head, s, other, t := inUse, inUseSeq, lru, lruSeq;
      }
      TakeOut(e, head, s, other, t);
      lruSeq, inUseSeq := Without(lruSeq, e), Without(inUseSeq, e);
    }

    /** Off the lists and out of the usage; the cache's reference is still counted. */
    method Leave(e: Handle, ghost members: set<Handle>)
      requires Inv(members) && e in members
      modifies this`lruSeq, this`inUseSeq, this`usage, lru`next, lru`prev, inUse`next, inUse`prev, all`next, all`prev, all`inCache
      ensures Over(members - {e}, e) && usage == old(usage) - e.charge
      ensures lruSeq == Without(old(lruSeq), e) && inUseSeq == Without(old(inUseSeq), e)
    {
      hide Linked, Charge, Without, AllDifferent, Shared, SharedBut, Elems;
      Differ();
      SharedDrop(lruSeq, inUseSeq, clients, members, e);
      assert Counted(e, members);
      Detach(e);
      label Detached:
      e.inCache := false;
      usage := usage - e.charge;
      assert Linked() by { assert old@Detached(Linked()); }
      forall h | h in all && h != e ensures Counted(h, members - {e}) {
        assert old(Counted(h, members));
      }
    }

    /** Finishes taking `e` out of the cache; the hash table has let go of it already. */
    method FinishErase(e: Handle?, ghost members: set<Handle>) returns (erased: bool)
      requires e != null ==> Inv(members) && e in members
      modifies this`lruSeq, this`inUseSeq, this`usage, lru`next, lru`prev, inUse`next, inUse`prev
      modifies all`next, all`prev, all`refs, all`inCache, all`deleted
      ensures erased <==> e != null
      ensures e == null ==> unchanged(this) && unchanged(lru, inUse) && unchanged(all)
      ensures e != null ==> Inv(members - {e}) && usage == old(usage) - e.charge
      ensures e != null ==> lruSeq == Without(old(lruSeq), e) && inUseSeq == Without(old(inUseSeq), e)
    {
      if e != null {
        hide Inv, Over, Without;
        Leave(e, members);
        Unref(e, members - {e});
      }
      erased := e != null;
    }

    lemma InUseNow(e: Handle, members: set<Handle>)
      requires Inv(members) && clients[e] > 0
      ensures e !in lruSeq
    {
      assert e in lruSeq ==> e in Elems(lruSeq);
    }

    // ----- the cache's operations -----

    /** A hit adds a client reference and takes the handle off the LRU list. */
    method Lookup(key: Key, hash: nat) returns (e: Handle?)
      requires Valid()
      modifies this`lruSeq, this`inUseSeq, this`clients, lru`next, lru`prev, inUse`next, inUse`prev, all`next, all`prev, all`refs
      ensures Valid() && table.Members() == old(table.Members())
      ensures e == null ==> clients == old(clients) && lruSeq == old(lruSeq) && forall h :: h in table.Members() ==> !Same(h, key, hash)
      ensures e != null ==> e in table.Members() && Same(e, key, hash) && clients == old(clients) + multiset{e} && e !in lruSeq
    {
      e := table.Lookup(key, hash);
      if e != null {
        hide Inv, Ring;
        ghost var members := table.Members();
        Ref(e, members);
        InUseNow(e, members);
      }
    }

    /** Drops a client reference; the last one on a cached handle makes it the newest of the
        LRU list, the last one on an erased handle runs its deleter. */
    method Release(h: Handle)
      requires Valid() && clients[h] > 0
      modifies this`lruSeq, this`inUseSeq, this`clients, h`refs, h`deleted, lru`next, lru`prev, inUse`next, inUse`prev, all`next, all`prev
      ensures Valid() && table.Members() == old(table.Members()) && clients == old(clients) - multiset{h}
      ensures lruSeq == if h in table.Members() && clients[h] == 0 then old(lruSeq) + [h] else old(lruSeq)
      ensures h.deleted == if h !in table.Members() && clients[h] == 0 then 1 else 0
    {
      hide Inv, Over, Elems, Without, Table.Valid;
      ghost var members := table.Members();
      LetGo(h, members);
      Unref(h, members);
      CountedNow(h, members);
    }

    /** One client fewer; the count still has its reference. */
    ghost method LetGo(h: Handle, members: set<Handle>)
      requires Inv(members) && clients[h] > 0
      modifies this`clients
      ensures Over(members, h) && h in all && clients == old(clients) - multiset{h}
    {
      hide Linked, Elems, Shared, SharedBut, Charge, AllDifferent;
      SharedRelease(lruSeq, inUseSeq, clients, members, h);
      assert h in all && Counted(h, members);
      clients := clients - multiset{h};
      assert Linked() by { assert old(Linked()); }
      forall g | g in all && g != h ensures Counted(g, members) {
        assert old(Counted(g, members));
      }
    }

    lemma CountedNow(h: Handle, members: set<Handle>)
      requires Inv(members) && h in all
      ensures h.deleted == if h !in members && clients[h] == 0 then 1 else 0
    {
      assert Counted(h, members);
    }

    /** Takes the entry out of the cache; a client that holds it keeps it. */
    method Erase(key: Key, hash: nat)
      requires Valid()
      modifies this`lruSeq, this`inUseSeq, this`usage, table, table.list, lru`next, lru`prev, inUse`next, inUse`prev, all
      ensures Valid() && table.list == old(table.list) && clients == old(clients) && table.Members() <= old(table.Members())
      ensures forall h :: h in old(table.Members()) ==> (h in table.Members() <==> !Same(h, key, hash))
    {
      hide Inv, Table.Valid;
      ghost var members := table.Members();
      InAll(members);
      KeysDiffer(members);
      var e := table.Remove(key, hash);
      assert Inv(members) by { assert old(Inv(members)); }
      var erased := FinishErase(e, members);
    }

    lemma InAll(members: set<Handle>)
      requires Inv(members)
      ensures members <= all && lru !in all && inUse !in all
    {
      assert forall h :: h in members ==> h in Elems(lruSeq) || h in Elems(inUseSeq);
    }

    lemma KeysDiffer(members: set<Handle>)
      requires table.Valid() && members == table.Members()
      ensures forall g, h :: g in members && h in members && Same(g, h.key, h.hash) ==> g == h
    {
      forall g, h | g in members && h in members && Same(g, h.key, h.hash) ensures g == h {
        table.Distinct(g, h);
      }
    }

    /** Takes the oldest unused handle out of the cache. */
    method EvictOldest()
      requires Valid() && lruSeq != []
      modifies this`lruSeq, this`inUseSeq, this`usage, table, table.list, lru`next, lru`prev, inUse`next, inUse`prev, all
      ensures Valid() && table.list == old(table.list) && clients == old(clients) && inUseSeq == old(inUseSeq)
      ensures lruSeq == old(lruSeq[1..]) && usage == old(usage - lruSeq[0].charge)
      ensures table.Members() == old(table.Members()) - {old(lruSeq[0])}
      ensures lru.next != null && (lru.next != lru <==> lruSeq != [])
    {
      hide Inv, Table.Valid;
      ghost var members, first := table.Members(), lruSeq[0];
      OldestFirst(members);
      InAll(members);
      KeysDiffer(members);
      var oldest := lru.next;
      var removed := table.Remove(oldest.key, oldest.hash);
      assert old(Inv(members));
      assert Inv(members);
      var erased := FinishErase(removed, members);
      FirstOfRing(table.Members());
    }

    /** The first node of the LRU ring is the oldest handle. */
    lemma OldestFirst(members: set<Handle>)
      requires Inv(members)
      ensures lru.next != null
      ensures lru.next != lru <==> lruSeq != []
      ensures lruSeq != [] ==> lru.next == lruSeq[0] && lruSeq[0] in members
      ensures lruSeq != [] ==> Without(lruSeq, lruSeq[0]) == lruSeq[1..] && Without(inUseSeq, lruSeq[0]) == inUseSeq
    {
      assert Node(lru, lruSeq, 0).next == Succ(lru, lruSeq, 0);
      if lruSeq != [] {
        assert lruSeq[0] in Elems(lruSeq) && lruSeq[0] !in Elems(inUseSeq);
        WithoutAbsent(inUseSeq, lruSeq[0]);
      }
    }

    lemma FirstOfRing(members: set<Handle>)
      requires Inv(members)
      ensures lru.next != null && (lru.next != lru <==> lruSeq != [])
    {
      OldestFirst(members);
    }

    /** Empties the LRU list; what clients hold stays cached. */
    method Prune()
      requires Valid()
      modifies this`lruSeq, this`inUseSeq, this`usage, table, table.list, lru`next, lru`prev, inUse`next, inUse`prev, all
      ensures Valid() && lruSeq == [] && inUseSeq == old(inUseSeq) && clients == old(clients)
      ensures table.Members() == old(table.Members()) - Elems(old(lruSeq))
    {
      hide Inv, Table.Valid;
      ghost var n := 0;
      FirstOfRing(table.Members());
      assert old(lruSeq)[0..] == old(lruSeq);
      while lru.next != lru
        invariant Valid() && table.list == old(table.list) && n <= |old(lruSeq)| && lruSeq == old(lruSeq)[n..]
        invariant lru.next != null && (lru.next != lru <==> lruSeq != [])
        invariant inUseSeq == old(inUseSeq) && clients == old(clients)
        invariant table.Members() == old(table.Members()) - Elems(old(lruSeq)[..n])
        decreases |lruSeq|
      {
        EvictOldest();
        OneMoreElem(old(lruSeq)[..n], old(lruSeq)[n]);
        assert old(lruSeq)[..n + 1] == old(lruSeq)[..n] + [old(lruSeq)[n]];
        n := n + 1;
      }
      assert old(lruSeq)[..n] == old(lruSeq);
    }

    /** A new handle enters the bookkeeping with its client's reference only. */
    method HandOut(e: Handle, ghost members: set<Handle>)
      requires Inv(members) && e !in all && e != lru && e != inUse && e !in members
      requires e.refs == 1 && !e.inCache && e.deleted == 0
      modifies this`clients, this`all, e`next
      ensures Inv(members) && clients == old(clients) + multiset{e} && all == old(all) + {e}
    {
      hide Charge, Without, AllDifferent, Elems, Ring;
      SharedAdd(lruSeq, inUseSeq, clients, members, e);
      e.next := null;
      all, clients := all + {e}, clients + multiset{e};
      forall h | h in all ensures Counted(h, members) {
        assert h != e ==> old(Counted(h, members));
      }
    }

    method JoinInUse(e: Handle)
      requires Linked() && e !in all && e != lru && e != inUse
      modifies this`inUseSeq, this`all, e`next, e`prev, inUse`next, inUse`prev, all`next, all`prev
      ensures Linked() && inUseSeq == old(inUseSeq) + [e] && all == old(all) + {e}
    {
      hide Ring, Elems;
      LRU_Append(inUse, e, inUseSeq, lru, lruSeq);
      inUseSeq, all := inUseSeq + [e], all + {e};
    }

    /** A new handle joins the in-use ring, with a second reference for the cache itself. */
    method Adopt(e: Handle, ghost members: set<Handle>)
      requires Inv(members) && e !in all && e != lru && e != inUse && e !in members
      requires e.refs == 1 && !e.inCache && e.deleted == 0
      modifies this`inUseSeq, this`clients, this`all, this`usage
      modifies e`next, e`prev, e`refs, e`inCache, inUse`next, inUse`prev, all`next, all`prev
      ensures Inv(members + {e}) && clients == old(clients) + multiset{e} && all == old(all) + {e}
      ensures inUseSeq == old(inUseSeq) + [e] && usage == old(usage) + e.charge
    {
      hide Linked, Charge, Without, AllDifferent, Elems, Shared;
      SharedAdd(lruSeq, inUseSeq, clients, members, e);
      JoinInUse(e);
      label Joined:
      e.refs := e.refs + 1;
      e.inCache := true;
      usage, clients := usage + e.charge, clients + multiset{e};
      assert Linked() by { assert old@Joined(Linked()); }
      forall h | h in all ensures Counted(h, members + {e}) {
        assert h != e ==> old(Counted(h, members));
      }
    }

    /** The eviction loop: oldest first, and no more than the capacity asks for. */
    method EvictWhileFull() returns (ghost evicted: seq<Handle>)
      requires Valid()
      modifies this`lruSeq, this`inUseSeq, this`usage, table, table.list, lru`next, lru`prev, inUse`next, inUse`prev, all
      ensures Valid() && inUseSeq == old(inUseSeq) && clients == old(clients)
      ensures old(lruSeq) == evicted + lruSeq && table.Members() == old(table.Members()) - Elems(evicted)
      ensures usage <= capacity || lruSeq == []
      ensures evicted != [] ==> usage + evicted[|evicted| - 1].charge > capacity
    {
      hide Inv, Table.Valid, Elems, Without;
      evicted := [];
      NoElems();
      FirstOfRing(table.Members());
      while usage > capacity && lru.next != lru
        invariant Valid() && table.list == old(table.list) && old(lruSeq) == evicted + lruSeq
        invariant lru.next != null && (lru.next != lru <==> lruSeq != [])
        invariant inUseSeq == old(inUseSeq) && clients == old(clients)
        invariant table.Members() == old(table.Members()) - Elems(evicted)
        invariant evicted != [] ==> usage + evicted[|evicted| - 1].charge > capacity
        decreases |lruSeq|
      {
        ghost var oldest := lruSeq[0];
        EvictOldest();
        OneMoreElem(evicted, oldest);
        evicted := evicted + [oldest];
      }
    }

    /** A new entry takes the place of one with its key. */
    method Enter(e: Handle) returns (replaced: Handle?)
      requires Valid() && e !in all && e != lru && e != inUse
      requires e.refs == 1 && !e.inCache && e.deleted == 0
      modifies this`lruSeq, this`inUseSeq, this`clients, this`all, this`usage, table, table.list
      modifies lru`next, lru`prev, inUse`next, inUse`prev, all, e
      ensures Valid() && (table.list == old(table.list) || fresh(table.list))
      ensures clients == old(clients) + multiset{e} && all == old(all) + {e}
      ensures replaced == null ==> forall h :: h in old(table.Members()) ==> !Same(h, e.key, e.hash)
      ensures replaced != null ==> replaced in old(table.Members()) && Same(replaced, e.key, e.hash)
      ensures lruSeq == Kept(old(lruSeq), replaced)
      ensures table.Members() == old(table.Members()) - {replaced} + {e}
    {
      hide Inv, Table.Valid, Elems, Without;
      ghost var members := table.Members();
      InAll(members);
      Adopt(e, members);
      replaced := table.Insert(e);
      assert Inv(members + {e});
      assert if replaced == null then table.Members() == members + {e} else table.Members() == members + {e} - {replaced};
      var erased := FinishErase(replaced, members + {e});
    }

    /** A new entry takes the place of one with its key, and room is made for it by evicting
        the least recently used handles that no client holds. */
    method Insert(key: Key, hash: nat, charge: nat) returns (e: Handle, ghost replaced: Handle?, ghost evicted: seq<Handle>)
      requires Valid()
      modifies this`lruSeq, this`inUseSeq, this`clients, this`all, this`usage, table, table.list
      modifies lru`next, lru`prev, inUse`next, inUse`prev, all
      ensures Valid() && fresh(e) && Same(e, key, hash) && e.charge == charge
      ensures clients == old(clients) + multiset{e} && all == old(all) + {e}
      ensures replaced != null ==> replaced in old(table.Members()) && Same(replaced, key, hash)
      ensures replaced == null ==> capacity == 0 || forall h :: h in old(table.Members()) ==> !Same(h, key, hash)
      ensures capacity == 0 ==> replaced == null
      ensures Kept(old(lruSeq), replaced) == evicted + lruSeq
      ensures table.Members() == old(table.Members()) - {replaced} + (if capacity > 0 then {e} else {}) - Elems(evicted)
      ensures usage <= capacity || lruSeq == []
      ensures evicted != [] ==> usage + evicted[|evicted| - 1].charge > capacity
    {
      hide Inv, Table.Valid, Elems, Without;
      e := new Handle(key, hash, charge);
      replaced := null;
      ghost var members := table.Members();
      assert Inv(members) by { assert old(Inv(members)); }
      InAll(members);
      if capacity > 0 {
        var previous := Enter(e);
        replaced := previous;
      } else {
        HandOut(e, members);
      }
      evicted := EvictWhileFull();
    }
  }

  /** A list of handles without the one that was replaced, if any. */
  ghost function Kept(s: seq<Handle>, replaced: Handle?): seq<Handle> {
    if replaced == null then s else Without(s, replaced)
  }

  lemma PlaceIn(head: Handle, s: seq<Handle>, e: Handle) returns (k: nat)
    requires Ring(head, s) && e in s
    ensures k < |s| && s[k] == e && Without(s, e) == Cut(s, k) && Charge(s) == Charge(Cut(s, k)) + e.charge
    ensures Elems(Cut(s, k)) == Elems(s) - {e}
  {
    k := Place(s, e);
    CutElems(s, k);
  }
}
