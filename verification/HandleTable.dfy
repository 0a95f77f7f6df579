/** The cache's hash table: buckets of linked handles that grow by rehashing. */
module HandleTable {
  type Key = seq<nat>

  class Handle {
    const key: Key
    const hash: nat
    const charge: nat
    var nextHash: Handle?
    var next: Handle?
    var prev: Handle?
    var inCache: bool
    var refs: nat
    /** How often the deleter has run. */
    ghost var deleted: nat

    constructor (key: Key, hash: nat, charge: nat)
      ensures this.key == key && this.hash == hash && this.charge == charge
      ensures nextHash == null && !inCache && refs == 1 && deleted == 0
    {
      this.key, this.hash, this.charge := key, hash, charge;
      nextHash, next, prev, inCache, refs, deleted := null, null, null, false, 1, 0;
    }
  }

  predicate Same(h: Handle, key: Key, hash: nat) {
    h.hash == hash && h.key == key
  }

  /** `chain` is what following the links from `first` visits. */
  ghost predicate Linked(first: Handle?, chain: seq<Handle>)
    reads chain`nextHash
  {
    && first == (if chain == [] then null else chain[0])
    && forall j {:trigger After(chain, j)} :: 0 <= j < |chain| ==> chain[j].nextHash == After(chain, j)
  }

  function After(chain: seq<Handle>, j: nat): Handle?
    requires j < |chain|
  {
    if j + 1 < |chain| then chain[j + 1] else null
  }

  /** The bucket a hash belongs to: the low bits that `length` masks. */
  function Home(hash: nat, length: nat): (i: nat)
    requires length > 0
    ensures i < length
  {
    hash % length
  }

  /** The handles of bucket `i` of `length`, no two with the same key and hash. */
  ghost predicate Bucket(chain: seq<Handle>, i: nat, length: nat)
    requires length > 0
  {
    && (forall j :: 0 <= j < |chain| ==> Home(chain[j].hash, length) == i)
    && forall j, k :: 0 <= j < k < |chain| ==> !Same(chain[j], chain[k].key, chain[k].hash)
  }

  /** Sizes double from 4, so that masking with `length - 1` is a remainder. */
  ghost predicate PowerOfTwo(n: nat) {
    n == 1 || (n > 1 && n % 2 == 0 && PowerOfTwo(n / 2))
  }

  ghost function MembersOf(chains: seq<seq<Handle>>): set<Handle> {
    set i, h | 0 <= i < |chains| && h in chains[i] :: h
  }

  ghost predicate Buckets(chains: seq<seq<Handle>>, length: nat)
    requires length > 0
  {
    forall i :: 0 <= i < |chains| ==> Bucket(chains[i], i, length)
  }

  lemma IsMember(chains: seq<seq<Handle>>, i: nat, h: Handle)
    requires i < |chains| && h in chains[i]
    ensures h in MembersOf(chains)
  {
  }

  /** A handle is in the chain its hash names, and nowhere else. */
  lemma OneChain(chains: seq<seq<Handle>>, length: nat, h: Handle)
    requires length == |chains| > 0 && Buckets(chains, length)
    ensures h in MembersOf(chains) <==> h in chains[Home(h.hash, length)]
    ensures forall i :: 0 <= i < |chains| && h in chains[i] ==> i == Home(h.hash, length)
  {
    forall i | 0 <= i < |chains| && h in chains[i] ensures i == Home(h.hash, length) {
      assert Bucket(chains[i], i, length);
    }
  }

  lemma MembersUpdate(chains: seq<seq<Handle>>, length: nat, i: nat, next: seq<Handle>)
    requires length == |chains| > 0 && Buckets(chains, length) && i < length && Bucket(next, i, length)
    ensures Buckets(chains[i := next], length)
    ensures forall h :: h in MembersOf(chains[i := next]) <==> h in next || (h in MembersOf(chains) && h !in chains[i])
  {
    var chains' := chains[i := next];
    assert Buckets(chains', length);
    forall h ensures h in MembersOf(chains') <==> h in next || (h in MembersOf(chains) && h !in chains[i]) {
      OneChain(chains, length, h);
      OneChain(chains', length, h);
    }
  }

  ghost predicate AllDifferent(chain: seq<Handle>) {
    forall a, b :: 0 <= a < b < |chain| ==> chain[a] != chain[b]
  }

  lemma BucketDiffers(chain: seq<Handle>, i: nat, length: nat)
    requires length > 0 && Bucket(chain, i, length)
    ensures AllDifferent(chain) && NoneAlike(chain)
  {
    forall a, b | 0 <= a < b < |chain| ensures chain[a] != chain[b] {
      assert !Same(chain[a], chain[b].key, chain[b].hash);
    }
  }

  lemma PutTail(chain: seq<Handle>, j: nat, h: Handle)
    requires j <= |chain|
    ensures
      var next := Put(chain, j, h);
      && j < |next| && next[j] == h && next[..j] == chain[..j]
      && |next| == (if j < |chain| then |chain| else |chain| + 1)
      && (forall m :: j < m < |next| ==> m < |chain| && next[m] == chain[m])
      && (forall m {:trigger After(next, m)} :: j < m < |next| ==> m < |chain| && After(next, m) == After(chain, m))
      && After(next, j) == if j < |chain| then After(chain, j) else null
  {
  }

  lemma OnlyThere(chains: seq<seq<Handle>>, length: nat, i: nat, j: nat, k: nat)
    requires length == |chains| > 0 && Buckets(chains, length) && i < length && k < length && i != k && j <= |chains[i]|
    ensures j > 0 ==> chains[i][j - 1] !in chains[k]
  {
    if j > 0 {
      OneChain(chains, length, chains[i][j - 1]);
    }
  }

  /** The chain with `h` in place of its member at `j`, or at its end. */
  ghost function Put(chain: seq<Handle>, j: nat, h: Handle): seq<Handle>
    requires j <= |chain|
  {
    if j == |chain| then chain + [h] else chain[j := h]
  }

  lemma PutIsBucket(chain: seq<Handle>, i: nat, length: nat, j: nat, h: Handle)
    requires length > 0 && Bucket(chain, i, length) && j <= |chain| && Home(h.hash, length) == i
    requires if j < |chain| then Same(chain[j], h.key, h.hash) else forall g :: g in chain ==> !Same(g, h.key, h.hash)
    ensures Bucket(Put(chain, j, h), i, length)
    ensures h !in chain ==> forall g :: g in Put(chain, j, h) <==> g == h || (g in chain && !(j < |chain| && g == chain[j]))
  {
    var next := Put(chain, j, h);
    if j < |chain| {
      forall g ensures g in next <==> g == h || (g in chain && g != chain[j]) {
        if g in next && g != h {
          var k :| 0 <= k < |next| && next[k] == g;
        }
        if g in chain && g != chain[j] {
          var k :| 0 <= k < |chain| && chain[k] == g;
          assert next[k] == g;
        }
        assert next[j] == h;
      }
    }
  }

  ghost function Total(chains: seq<seq<Handle>>): nat {
    if chains == [] then 0 else Total(chains[..|chains| - 1]) + |chains[|chains| - 1]|
  }

  lemma {:induction false} TotalUpdate(chains: seq<seq<Handle>>, i: nat, chain: seq<Handle>)
    requires i < |chains|
    ensures Total(chains[i := chain]) == Total(chains) - |chains[i]| + |chain|
  {
    var n := |chains| - 1;
    if i < n {
      TotalUpdate(chains[..n], i, chain);
      assert chains[i := chain][..n] == chains[..n][i := chain];
    } else {
      assert chains[i := chain][..n] == chains[..n];
    }
  }

  // ----- rehashing -----

  /** The chains are those that the bucket array leads to. */
  ghost predicate Holds(list: array<Handle?>, chains: seq<seq<Handle>>)
    reads list, MembersOf(chains)`nextHash
  {
    list.Length == |chains| && forall i :: 0 <= i < |chains| ==> HoldsAt(list, chains, i)
  }

  ghost predicate HoldsAt(list: array<Handle?>, chains: seq<seq<Handle>>, i: nat)
    requires i < |chains| == list.Length
    reads list, MembersOf(chains)`nextHash
  {
    assert forall h :: h in chains[i] ==> h in MembersOf(chains);
    Linked(list[i], chains[i])
  }

  ghost function Pushed(chains: seq<seq<Handle>>, h: Handle): seq<seq<Handle>>
    requires |chains| > 0
  {
    var b := Home(h.hash, |chains|);
    chains[b := [h] + chains[b]]
  }

  lemma FrontIsBucket(chain: seq<Handle>, b: nat, length: nat, h: Handle)
    requires length > 0 && Bucket(chain, b, length) && Home(h.hash, length) == b
    requires forall g :: g in chain ==> !Same(h, g.key, g.hash)
    ensures Bucket([h] + chain, b, length)
  {
    var next := [h] + chain;
    forall j, k | 0 <= j < k < |next| ensures !Same(next[j], next[k].key, next[k].hash) {
      assert next[k] == chain[k - 1];
      assert j > 0 ==> next[j] == chain[j - 1];
    }
  }

  lemma PushIsBucket(chains: seq<seq<Handle>>, h: Handle)
    requires |chains| > 0 && Buckets(chains, |chains|)
    requires forall g :: g in MembersOf(chains) ==> !Same(h, g.key, g.hash)
    ensures Buckets(Pushed(chains, h), |chains|)
    ensures MembersOf(Pushed(chains, h)) == MembersOf(chains) + {h} && Total(Pushed(chains, h)) == Total(chains) + 1
  {
    var length, b := |chains|, Home(h.hash, |chains|);
    var next := [h] + chains[b];
    assert Bucket(chains[b], b, length);
    forall g | g in chains[b] ensures g in MembersOf(chains) {
      IsMember(chains, b, g);
    }
    FrontIsBucket(chains[b], b, length, h);
    hide Bucket, Buckets, Same, Home;
    MembersUpdate(chains, length, b, next);
    TotalUpdate(chains, b, next);
  }

  /** One handle moves to the front of its new bucket. */
  method MoveOne(h: Handle, newList: array<Handle?>, ghost moved: seq<seq<Handle>>)
    requires newList.Length > 0 && Holds(newList, moved) && Buckets(moved, newList.Length)
    requires forall g :: g in MembersOf(moved) ==> !Same(h, g.key, g.hash)
    modifies newList, h`nextHash
    ensures newList.Length == |moved| && Holds(newList, Pushed(moved, h))
  {
    var b := Home(h.hash, newList.Length);
    assert h !in MembersOf(moved);
    assert HoldsAt(newList, moved, b);
    ghost var chain := moved[b];
    assert forall m {:trigger After(chain, m)} :: 0 <= m < |chain| ==> chain[m].nextHash == After(chain, m);
    h.nextHash := newList[b];
    newList[b] := h;
    ghost var next := Pushed(moved, h);
    assert next[b] == [h] + moved[b];
    hide Home, Bucket, Buckets;
    forall i | 0 <= i < |next| ensures HoldsAt(newList, next, i) {
      assert old(HoldsAt(newList, moved, i));
      if i == b {
        forall j | 0 <= j < |next[b]| ensures next[b][j].nextHash == After(next[b], j) {
          if j > 0 {
            assert next[b][j] == chain[j - 1] && After(next[b], j) == After(chain, j - 1);
            IsMember(moved, b, chain[j - 1]);
            assert old(chain[j - 1].nextHash) == After(chain, j - 1);
          }
        }
      }
    }
  }

  /** No two have the same key and hash. */
  ghost predicate NoneAlike(chain: seq<Handle>) {
    forall a, b :: 0 <= a < b < |chain| ==> !Same(chain[a], chain[b].key, chain[b].hash)
  }

  /** None of `rest` has the key and hash of one of `done`. */
  ghost predicate Clear(rest: seq<Handle>, done: set<Handle>) {
    forall a, g :: a in rest && g in done ==> !Same(a, g.key, g.hash)
  }

  ghost function AllPushed(moved: seq<seq<Handle>>, chain: seq<Handle>, j: nat): (r: seq<seq<Handle>>)
    requires |moved| > 0 && j <= |chain|
    ensures |r| == |moved|
  {
    if j == 0 then moved else Pushed(AllPushed(moved, chain, j - 1), chain[j - 1])
  }

  lemma {:induction false} AllPushedIsBuckets(moved: seq<seq<Handle>>, chain: seq<Handle>, j: nat)
    requires |moved| > 0 && j <= |chain| && Buckets(moved, |moved|) && Clear(chain, MembersOf(moved))
    requires NoneAlike(chain)
    ensures Buckets(AllPushed(moved, chain, j), |moved|) && Total(AllPushed(moved, chain, j)) == Total(moved) + j
    ensures forall g :: g in MembersOf(AllPushed(moved, chain, j)) <==> g in MembersOf(moved) || g in chain[..j]
    ensures j < |chain| ==> forall g :: g in MembersOf(AllPushed(moved, chain, j)) ==> !Same(chain[j], g.key, g.hash)
  {
    hide Buckets, Clear, Total, Same, NoneAlike, Pushed;
    if j > 0 {
      AllPushedIsBuckets(moved, chain, j - 1);
      PushIsBucket(AllPushed(moved, chain, j - 1), chain[j - 1]);
      assert chain[..j] == chain[..j - 1] + [chain[j - 1]];
    }
    var all := MembersOf(AllPushed(moved, chain, j));
    assert forall g :: g in all <==> g in MembersOf(moved) || g in chain[..j];
    if j < |chain| {
      forall g | g in all ensures !Same(chain[j], g.key, g.hash) {
        NextIsOther(moved, chain, j, g);
      }
    }
  }

  lemma NextIsOther(moved: seq<seq<Handle>>, chain: seq<Handle>, j: nat, g: Handle)
    requires j < |chain| && Clear(chain, MembersOf(moved)) && NoneAlike(chain)
    requires g in MembersOf(moved) || g in chain[..j]
    ensures !Same(chain[j], g.key, g.hash)
  {
    assert chain[j] in chain;
    if g in chain[..j] {
      var a :| 0 <= a < j && chain[..j][a] == g;
      assert !Same(chain[a], chain[j].key, chain[j].hash);
    }
  }

  /** The smallest power of two, from 4 on, that is not below the number of handles. */
  method NewLength(elems: nat) returns (newLength: nat)
    ensures newLength >= 4 && newLength >= elems && PowerOfTwo(newLength) && (newLength > 4 ==> newLength / 2 < elems)
  {
    newLength := 4;
    assert PowerOfTwo(2) && PowerOfTwo(4);
    while newLength < elems
      invariant newLength >= 4 && PowerOfTwo(newLength) && (newLength > 4 ==> newLength / 2 < elems)
    {
      newLength := newLength * 2;
    }
  }

  method Cleared(length: nat) returns (list: array<Handle?>)
    ensures fresh(list) && list.Length == length && forall k :: 0 <= k < length ==> list[k] == null
  {
    list := new Handle?[length](_ => null);
  }

  lemma NothingYet(moved: seq<seq<Handle>>, length: nat)
    requires length > 0 && |moved| == length && forall k :: 0 <= k < length ==> moved[k] == []
    ensures Buckets(moved, length) && MembersOf(moved) == MembersOf([]) == {} && Total(moved) == 0 == Total([])
  {
    AllEmpty(moved);
  }

  lemma {:induction false} AllEmpty(moved: seq<seq<Handle>>)
    requires forall k :: 0 <= k < |moved| ==> moved[k] == []
    ensures Total(moved) == 0
  {
    if moved != [] {
      AllEmpty(moved[..|moved| - 1]);
    }
  }

  lemma OneMoreChain(chains: seq<seq<Handle>>, i: nat, g: Handle)
    requires i < |chains|
    ensures g in MembersOf(chains[..i + 1]) <==> g in MembersOf(chains[..i]) || g in chains[i]
    ensures g in MembersOf(chains[..i]) ==> exists k :: 0 <= k < i && g in chains[k]
  {
    assert chains[..i + 1] == chains[..i] + [chains[i]] && chains[..i + 1][..i] == chains[..i];
    if g in MembersOf(chains[..i]) {
      var k :| 0 <= k < i && g in chains[..i][k];
      assert g in chains[..i + 1][k] && g in chains[k];
    }
    if g in chains[i] {
      assert g in chains[..i + 1][i];
    }
  }

  lemma EarlierIsClear(chains: seq<seq<Handle>>, length: nat, i: nat)
    requires length == |chains| && i < length && Buckets(chains, length)
    ensures Bucket(chains[i], i, length) && Clear(chains[i], MembersOf(chains[..i]))
  {
    forall a, g | a in chains[i] && g in MembersOf(chains[..i]) ensures !Same(a, g.key, g.hash) {
      OneMoreChain(chains, i, g);
      OneChain(chains, length, a);
      OneChain(chains, length, g);
    }
  }

  /** Old bucket `i` passes into the new buckets ... */
  lemma PassesOn(chains: seq<seq<Handle>>, length: nat, i: nat, moved: seq<seq<Handle>>)
    requires length == |chains| && i < length && Buckets(chains, length)
    requires |moved| > 0 && Buckets(moved, |moved|) && MembersOf(moved) == MembersOf(chains[..i]) && Total(moved) == Total(chains[..i])
    ensures Bucket(chains[i], i, length) && Clear(chains[i], MembersOf(moved))
    ensures
      var next := AllPushed(moved, chains[i], |chains[i]|);
      Buckets(next, |moved|) && MembersOf(next) == MembersOf(chains[..i + 1]) && Total(next) == Total(chains[..i + 1])
  {
    hide Bucket, Buckets, Total, AllPushed, Clear;
    var chain := chains[i];
    EarlierIsClear(chains, length, i);
    MovedAll(moved, chain, i, length);
    var now, next := MembersOf(chains[..i + 1]), MembersOf(AllPushed(moved, chain, |chain|));
    forall g ensures g in now <==> g in next {
      OneMoreChain(chains, i, g);
    }
    assert now == next;
    OneMoreChainTotal(chains, i);
  }

  lemma MovedAll(moved: seq<seq<Handle>>, chain: seq<Handle>, i: nat, length: nat)
    requires |moved| > 0 && Buckets(moved, |moved|) && length > 0 && Bucket(chain, i, length) && Clear(chain, MembersOf(moved))
    ensures
      var next := AllPushed(moved, chain, |chain|);
      && Buckets(next, |moved|) && Total(next) == Total(moved) + |chain|
      && forall g :: g in MembersOf(next) <==> g in MembersOf(moved) || g in chain
  {
    AllPushedIsBuckets(moved, chain, |chain|);
    assert chain[..|chain|] == chain;
  }

  lemma OneMoreChainTotal(chains: seq<seq<Handle>>, i: nat)
    requires i < |chains|
    ensures Total(chains[..i + 1]) == Total(chains[..i]) + |chains[i]|
  {
    assert chains[..i + 1] == chains[..i] + [chains[i]] && chains[..i + 1][..i] == chains[..i];
  }

  /** ... and later ones share no handle with it. */
  lemma LaterIsApart(chains: seq<seq<Handle>>, length: nat, i: nat, k: nat)
    requires length == |chains| && i < k < length && Buckets(chains, length)
    ensures forall h :: h in chains[k] ==> h !in chains[i]
  {
    forall h | h in chains[k] ensures h !in chains[i] {
      OneChain(chains, length, h);
    }
  }

  /** The inner loop of a resize: one old bucket is emptied into the new ones. */
  method MoveBucket(first: Handle?, newList: array<Handle?>, ghost chain: seq<Handle>, ghost moved: seq<seq<Handle>>, ghost i: nat, ghost length: nat)
    requires length > 0 && Linked(first, chain) && Bucket(chain, i, length)
    requires newList.Length > 0 && Holds(newList, moved) && Buckets(moved, newList.Length) && Clear(chain, MembersOf(moved))
    modifies newList, chain`nextHash
    ensures |moved| == newList.Length && Holds(newList, AllPushed(moved, chain, |chain|))
  {
    hide Bucket, Buckets, Clear, NoneAlike, Same, Pushed;
    var h := first;
    ghost var j := 0;
    BucketDiffers(chain, i, length);
    while h != null
      invariant j <= |chain| && h == if j < |chain| then chain[j] else null
      invariant Holds(newList, AllPushed(moved, chain, j))
      invariant forall m {:trigger After(chain, m)} :: j <= m < |chain| ==> chain[m].nextHash == After(chain, m)
      decreases |chain| - j
    {
      assert h.nextHash == After(chain, j);
      var next := h.nextHash;
      AllPushedIsBuckets(moved, chain, j);
      MoveOne(h, newList, AllPushed(moved, chain, j));
      h := next;
      j := j + 1;
    }
  }

  class Table {
    var elems: nat
    var list: array<Handle?>
    ghost var chains: seq<seq<Handle>>

    constructor ()
      ensures Valid() && Members() == {} && fresh(list)
    {
      elems := 0;
      list := new Handle?[4](_ => null);
      chains := seq(4, _ => []);
      new;
      NothingYet(chains, 4);
      assert PowerOfTwo(2) && PowerOfTwo(4);
    }

    ghost function Members(): set<Handle>
      reads this`chains
    {
      MembersOf(chains)
    }

    /** No more handles than buckets. */
    ghost predicate Valid()
      reads this, list, Members()`nextHash
    {
      Wired() && elems <= list.Length
    }

    ghost predicate Wired()
      reads this, list, Members()`nextHash
    {
      && list.Length == |chains| && list.Length > 0 && PowerOfTwo(list.Length) && elems == Total(chains)
      && Buckets(chains, list.Length)
      && forall i :: 0 <= i < |chains| ==> InList(i)
    }

    ghost predicate InList(i: nat)
      requires i < |chains| == list.Length
      reads this`list, this`chains, list, Members()`nextHash
    {
      assert forall h :: h in chains[i] ==> h in Members();
      Linked(list[i], chains[i])
    }

    /** The slot that points to the handle with this key and hash, or the trailing slot of its
        bucket: bucket `i`, after `before`. */
    method FindPointer(key: Key, hash: nat) returns (i: nat, before: Handle?, found: Handle?, ghost j: nat)
      requires Valid()
      ensures Valid() && i < |chains| && i == Home(hash, list.Length) && j <= |chains[i]|
      ensures before == if j == 0 then null else chains[i][j - 1]
      ensures found == if j == |chains[i]| then null else chains[i][j]
      ensures (before != null ==> before in Members()) && (found != null ==> found in Members())
      ensures found != null ==> Same(found, key, hash)
      ensures found == null ==> forall h :: h in Members() ==> !Same(h, key, hash)
    {
      i, before, j := Home(hash, list.Length), null, 0;
      assert InList(i);
      found := list[i];
      while found != null && !(found.hash == hash && key == found.key)
        invariant j <= |chains[i]|
        invariant before == if j == 0 then null else chains[i][j - 1]
        invariant found == if j == |chains[i]| then null else chains[i][j]
        invariant forall m :: 0 <= m < j ==> !Same(chains[i][m], key, hash)
        decreases |chains[i]| - j
      {
        assert found.nextHash == After(chains[i], j);
        before, found, j := found, found.nextHash, j + 1;
      }
      if j < |chains[i]| {
        IsMember(chains, i, chains[i][j]);
      }
      if j > 0 {
        IsMember(chains, i, chains[i][j - 1]);
      }
      if found == null {
        forall h | h in Members() ensures !Same(h, key, hash) {
          OneChain(chains, list.Length, h);
        }
      }
    }

    method Lookup(key: Key, hash: nat) returns (found: Handle?)
      requires Valid()
      ensures Valid()
      ensures found != null ==> found in Members() && Same(found, key, hash)
      ensures found == null ==> forall h :: h in Members() ==> !Same(h, key, hash)
    {
      var i, before;
      ghost var j;
      i, before, found, j := FindPointer(key, hash);
    }

    /** Members have different keys or hashes. */
    lemma Distinct(g: Handle, h: Handle)
      requires Wired() && g in Members() && h in Members() && Same(g, h.key, h.hash)
      ensures g == h
    {
      OneChain(chains, list.Length, g);
      OneChain(chains, list.Length, h);
      var i := Home(h.hash, list.Length);
      assert Bucket(chains[i], i, list.Length);
      var a :| 0 <= a < |chains[i]| && chains[i][a] == g;
      var b :| 0 <= b < |chains[i]| && chains[i][b] == h;
    }

    method SetSlot(i: nat, before: Handle?, h: Handle?)
      requires i < list.Length
      modifies list, if before == null then {} else {before}`nextHash
      ensures before == null ==> list[i] == h
      ensures before != null ==> before.nextHash == h && list[i] == old(list[i])
      ensures forall k :: 0 <= k < list.Length && k != i ==> list[k] == old(list[k])
    {
      if before == null {
        list[i] := h;
      } else {
        before.nextHash := h;
      }
    }

    /** Points one slot of bucket `i` past position `j` of its chain. */
    method Relink(i: nat, before: Handle?, h: Handle?, ghost j: nat, ghost next: seq<Handle>)
      requires Wired() && i < |chains| && j <= |chains[i]|
      requires before == if j == 0 then null else chains[i][j - 1]
      requires j <= |next| && next[..j] == chains[i][..j]
      requires h == if j < |next| then next[j] else null
      requires forall m {:trigger After(next, m)} :: j <= m < |next| ==> next[m].nextHash == After(next, m)
      requires before != null ==> forall m :: j <= m < |next| ==> next[m] != before
      modifies list, Members()`nextHash
      ensures Linked(list[i], next)
      ensures forall k :: 0 <= k < |chains| && k != i ==> InList(k)
    {
      ghost var chain := chains[i];
      assert InList(i) && Linked(list[i], chain);
      assert AllDifferent(chain) by {
        assert Bucket(chain, i, list.Length);
        BucketDiffers(chain, i, list.Length);
      }
      hide Bucket, Buckets, Total, PowerOfTwo, MembersOf, Same, Home;
      if before != null {
        IsMember(chains, i, before);
      }
      SetSlot(i, before, h);
      LinksUp(list[i], chain, next, j);
      forall k | 0 <= k < |chains| && k != i ensures Linked(list[k], chains[k]) {
        assert old(InList(k));
        OnlyThere(chains, list.Length, i, j, k);
      }
    }

    /** Adds a handle, replacing one with the same key and hash, which is returned. */
    method Insert(h: Handle) returns (old_: Handle?)
      requires Valid() && h !in Members()
      modifies this, list, Members()`nextHash, h`nextHash
      ensures Valid() && (list == old(list) || (fresh(list) && old_ == null && old(elems) == old(list.Length)))
      ensures old_ == null ==> (forall g :: g in old(Members()) ==> !Same(g, h.key, h.hash)) && Members() == old(Members()) + {h}
      ensures old_ != null ==> old_ in old(Members()) && Same(old_, h.key, h.hash) && Members() == old(Members()) - {old_} + {h}
    {
      hide Buckets, PowerOfTwo, MembersOf, Total;
      old_ := Place(h);
      if old_ == null && elems > list.Length {
        Resize();
      }
    }

    lemma AboutChain(i: nat)
      requires Wired() && i < |chains|
      ensures Linked(list[i], chains[i]) && Bucket(chains[i], i, list.Length) && AllDifferent(chains[i])
      ensures forall h :: h in chains[i] ==> h in Members()
    {
      assert InList(i) && Bucket(chains[i], i, list.Length);
      BucketDiffers(chains[i], i, list.Length);
    }

    /** All of Insert but the growth of the table. */
    method Place(h: Handle) returns (old_: Handle?)
      requires Valid() && h !in Members()
      modifies this, list, Members()`nextHash, h`nextHash
      ensures Wired() && list == old(list) && elems == old(elems) + if old_ == null then 1 else 0
      ensures old_ == null ==> (forall g :: g in old(Members()) ==> !Same(g, h.key, h.hash)) && Members() == old(Members()) + {h}
      ensures old_ != null ==> old_ in old(Members()) && Same(old_, h.key, h.hash) && Members() == old(Members()) - {old_} + {h}
    {
      hide Bucket, Buckets, Total, PowerOfTwo, MembersOf, Put, Home, Same;
      var i, before;
      ghost var j;
      i, before, old_, j := FindPointer(h.key, h.hash);
      ghost var was, length, chain := chains, list.Length, chains[i];
      AboutChain(i);
      ghost var next := Put(chain, j, h);
      PutTail(chain, j, h);
      h.nextHash := if old_ == null then null else old_.nextHash;
      assert Wired();
      Relink(i, before, h, j, next);
      hide Linked, After, AllDifferent;
      TotalUpdate(was, i, next);
      MembersPut(was, length, i, j, h);
      if old_ == null {
        elems := elems + 1;
      }
      Rechain(i, next);
    }

    /** Takes out the handle with this key and hash, if there is one. */
    method Remove(key: Key, hash: nat) returns (result: Handle?)
      requires Valid()
      modifies this, list, Members()`nextHash
      ensures Valid() && list == old(list)
      ensures result == null ==> Members() == old(Members()) && forall g :: g in old(Members()) ==> !Same(g, key, hash)
      ensures result != null ==> result in old(Members()) && Same(result, key, hash) && Members() == old(Members()) - {result}
    {
      hide Bucket, Buckets, Total, PowerOfTwo, MembersOf, Home, Same;
      var i, before;
      ghost var j;
      i, before, result, j := FindPointer(key, hash);
      if result == null {
        return;
      }
      ghost var was, length, chain := chains, list.Length, chains[i];
      AboutChain(i);
      ghost var next := chain[..j] + chain[j + 1..];
      CutTail(chain, j);
      assert result.nextHash == After(chain, j);
      assert next[..j] == chain[..j] && forall m :: j <= m < |next| ==> next[m] == chain[m + 1];
      Relink(i, before, result.nextHash, j, next);
      hide Linked, After, AllDifferent;
      TotalUpdate(was, i, next);
      MembersCut(was, length, i, j);
      elems := elems - 1;
      Rechain(i, next);
    }

    /** A fresh bucket array of at least `elems` buckets, every handle relinked into it. */
    method Resize()
      requires Wired()
      modifies this, Members()`nextHash
      ensures Valid() && fresh(list) && Members() == old(Members()) && elems == old(elems)
    {
      hide Bucket, Buckets, PowerOfTwo, MembersOf, Total, Home, Linked;
      var newLength := NewLength(elems);
      var newList := Cleared(newLength);
      forall k | 0 <= k < |chains| ensures InList(k) {
        assert old(InList(k));
      }
      ghost var moved := MoveAll(newList);
      list := newList;
      chains := moved;
      forall k | 0 <= k < newLength ensures InList(k) {
        assert HoldsAt(newList, moved, k);
      }
    }

    lemma NothingMoved(newList: array<Handle?>, moved: seq<seq<Handle>>)
      requires Wired() && newList.Length > 0 && forall k :: 0 <= k < newList.Length ==> newList[k] == null
      requires moved == seq(newList.Length, _ => [])
      ensures Holds(newList, moved) && Buckets(moved, newList.Length)
      ensures MembersOf(moved) == MembersOf(chains[..0]) && Total(moved) == Total(chains[..0])
    {
      hide Bucket, Buckets, PowerOfTwo, Total;
      NothingYet(moved, newList.Length);
      assert chains[..0] == [];
    }

    lemma ChainsLinked()
      requires Wired()
      ensures forall k :: 0 <= k < |chains| ==> Linked(list[k], chains[k])
    {
      forall k | 0 <= k < |chains| ensures Linked(list[k], chains[k]) {
        assert InList(k);
      }
    }

    method MoveAll(newList: array<Handle?>) returns (ghost moved: seq<seq<Handle>>)
      requires Wired() && newList != list && newList.Length > 0 && forall k :: 0 <= k < newList.Length ==> newList[k] == null
      modifies newList, Members()`nextHash
      ensures |moved| == newList.Length && Holds(newList, moved) && Buckets(moved, newList.Length)
      ensures MembersOf(moved) == Members() && Total(moved) == elems
    {
      hide Bucket, Buckets, PowerOfTwo, MembersOf, Total, Pushed, Home, Holds, AllPushed, Clear;
      ghost var length := list.Length;
      moved := seq(newList.Length, _ => []);
      NothingMoved(newList, moved);
      ChainsLinked();
      for i := 0 to list.Length
        invariant |moved| == newList.Length && Holds(newList, moved) && Buckets(moved, newList.Length)
        invariant MembersOf(moved) == MembersOf(chains[..i]) && Total(moved) == Total(chains[..i])
        invariant forall k :: i <= k < length ==> Linked(list[k], chains[k])
      {
        PassesOn(chains, length, i, moved);
        forall h | h in chains[i] ensures h in old(Members()) {
          IsMember(chains, i, h);
        }
        label Before:
        MoveBucket(list[i], newList, chains[i], moved, i, length);
        forall k | i < k < length ensures Linked(list[k], chains[k]) {
          LaterIsApart(chains, length, i, k);
          assert list[k] == old@Before(list[k]);
          assert forall h :: h in chains[k] ==> h.nextHash == old@Before(h.nextHash);
          assert old@Before(Linked(list[k], chains[k]));
        }
        moved := AllPushed(moved, chains[i], |chains[i]|);
      }
      assert chains[..length] == chains;
    }

    /** Records the new chain of a relinked bucket. */
    ghost method Rechain(i: nat, next: seq<Handle>)
      requires list.Length == |chains| && i < |chains| && Linked(list[i], next)
      requires forall k :: 0 <= k < |chains| && k != i ==> InList(k)
      modifies this`chains
      ensures chains == old(chains)[i := next] && forall k :: 0 <= k < |chains| ==> InList(k)
    {
      assert forall k :: 0 <= k < |chains| && k != i ==> InList(k) && Linked(list[k], chains[k]);
      hide Linked;
      chains := chains[i := next];
    }
  }

  lemma CutTail(chain: seq<Handle>, j: nat)
    requires j < |chain|
    ensures
      var next := chain[..j] + chain[j + 1..];
      && next[..j] == chain[..j] && |next| == |chain| - 1
      && (forall m :: j <= m < |next| ==> next[m] == chain[m + 1])
      && (forall m {:trigger After(next, m)} :: j <= m < |next| ==> After(next, m) == After(chain, m + 1))
      && After(chain, j) == if j < |next| then next[j] else null
  {
  }

  lemma MembersCut(chains: seq<seq<Handle>>, length: nat, i: nat, j: nat)
    requires length == |chains| > 0 && Buckets(chains, length) && i < length && j < |chains[i]|
    ensures
      var next := chains[i := chains[i][..j] + chains[i][j + 1..]];
      && Buckets(next, length) && MembersOf(next) == MembersOf(chains) - {chains[i][j]}
  {
    hide Home;
    var chain := chains[i];
    var next := chain[..j] + chain[j + 1..];
    assert Bucket(chain, i, length);
    BucketDiffers(chain, i, length);
    assert Bucket(next, i, length);
    forall g | g in chain ensures g in MembersOf(chains) {
      IsMember(chains, i, g);
    }
    forall g ensures g in next <==> g in chain && g != chain[j] {
      assert chain == chain[..j] + ([chain[j]] + chain[j + 1..]);
    }
    MembersUpdate(chains, length, i, next);
  }

  /** A kept front and a linked rest make a linked chain. */
  lemma LinksUp(first: Handle?, chain: seq<Handle>, next: seq<Handle>, j: nat)
    requires j <= |chain| && j <= |next| && next[..j] == chain[..j]
    requires first == if j > 0 then chain[0] else if next == [] then null else next[0]
    requires forall m {:trigger After(chain, m)} :: 0 <= m < j - 1 ==> chain[m].nextHash == After(chain, m)
    requires j > 0 ==> chain[j - 1].nextHash == if j < |next| then next[j] else null
    requires forall m {:trigger After(next, m)} :: j <= m < |next| ==> next[m].nextHash == After(next, m)
    ensures Linked(first, next)
  {
    forall m | 0 <= m < |next| ensures next[m].nextHash == After(next, m) {
      if m < j {
        assert next[m] == next[..j][m] == chain[m];
        assert m + 1 < j ==> next[m + 1] == next[..j][m + 1] == chain[m + 1] && chain[m].nextHash == After(chain, m);
      }
    }
  }

  /** One handle comes in, at most one goes out. */
  lemma MembersPut(chains: seq<seq<Handle>>, length: nat, i: nat, j: nat, h: Handle)
    requires length == |chains| > 0 && Buckets(chains, length) && i < length && j <= |chains[i]|
    requires Home(h.hash, length) == i && h !in chains[i]
    requires if j < |chains[i]| then Same(chains[i][j], h.key, h.hash) else forall g :: g in MembersOf(chains) ==> !Same(g, h.key, h.hash)
    ensures
      var next := chains[i := Put(chains[i], j, h)];
      && Buckets(next, length)
      && MembersOf(next) == MembersOf(chains) - (if j < |chains[i]| then {chains[i][j]} else {}) + {h}
  {
    var chain := chains[i];
    assert Bucket(chain, i, length);
    forall g | g in chain ensures g in MembersOf(chains) {
      IsMember(chains, i, g);
    }
    PutIsBucket(chain, i, length, j, h);
    MembersUpdate(chains, length, i, Put(chain, j, h));
    hide Put, Bucket, Buckets, Home, Same;
    var now, was := MembersOf(chains[i := Put(chain, j, h)]), MembersOf(chains);
    forall g ensures g in now <==> g == h || (g in was && !(j < |chain| && g == chain[j])) {
      assert g in chain ==> g in was;
    }
  }
}
