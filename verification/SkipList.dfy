/** The memtable's skip list: towers of links over one sorted list, searched from the top. */
module SkipList {
  /** Keys stand for their place in the comparator's order. */
  type Key = real

  /** kMaxHeight */
  const MAX_HEIGHT: nat := 12

  class Node {
    const key: Key
    var next: seq<Node?>

    constructor (key: Key, height: nat)
      ensures this.key == key && next == seq(height, _ => null)
    {
      this.key, next := key, seq(height, _ => null);
    }
  }

  // ----- towers -----

  /** The first position from `q` on with a tower above level `l`. */
  ghost function NextAt(heights: seq<nat>, q: nat, l: nat): (n: nat)
    requires q <= |heights|
    ensures q <= n <= |heights|
    ensures n < |heights| ==> heights[n] > l
    ensures forall m :: q <= m < n ==> heights[m] <= l
    decreases |heights| - q
  {
    if q == |heights| then q else if heights[q] > l then q else NextAt(heights, q + 1, l)
  }

  lemma {:induction false} NextAtIs(heights: seq<nat>, q: nat, l: nat, n: nat)
    requires q <= n <= |heights|
    requires n < |heights| ==> heights[n] > l
    requires forall m :: q <= m < n ==> heights[m] <= l
    ensures NextAt(heights, q, l) == n
    decreases n - q
  {
    if q < n {
      NextAtIs(heights, q + 1, l, n);
    }
  }

  ghost predicate Increasing(order: seq<Node>) {
    forall p, q :: 0 <= p < q < |order| ==> order[p].key < order[q].key
  }

  function NodeAt(order: seq<Node>, q: nat): Node? {
    if q < |order| then order[q] else null
  }

  /** `s` nodes have keys below `key`. */
  ghost predicate IsRank(order: seq<Node>, key: Key, s: nat) {
    && s <= |order|
    && (forall p :: 0 <= p < s ==> order[p].key < key)
    && (forall p :: s <= p < |order| ==> key <= order[p].key)
  }

  /** The last position before `s` with a tower above level `l`; -1 is the head. */
  ghost predicate IsPrev(heights: seq<nat>, s: nat, l: nat, p: int) {
    && s <= |heights| && -1 <= p < s
    && (p >= 0 ==> heights[p] > l)
    && (forall m :: p < m < s ==> heights[m] <= l)
  }

  /** The list at level `l`, from position `q` on. */
  ghost function Level(order: seq<Node>, heights: seq<nat>, q: nat, l: nat): seq<Node>
    requires |order| == |heights| && q <= |order|
    decreases |order| - q
  {
    if q == |order| then []
    else if heights[q] > l then [order[q]] + Level(order, heights, q + 1, l)
    else Level(order, heights, q + 1, l)
  }

  /** It is what following the links of a wired list visits. */
  lemma {:induction false} LevelFollowsLinks(order: seq<Node>, heights: seq<nat>, q: nat, l: nat)
    requires |order| == |heights| && q <= |order|
    ensures
      var n := NextAt(heights, q, l);
      Level(order, heights, q, l) == if n == |order| then [] else [order[n]] + Level(order, heights, n + 1, l)
    decreases |order| - q
  {
    if q < |order| && heights[q] <= l {
      LevelFollowsLinks(order, heights, q + 1, l);
    }
  }

  ghost predicate Sublist(a: seq<Node>, b: seq<Node>) {
    a == [] || (b != [] && ((a[0] == b[0] && Sublist(a[1..], b[1..])) || Sublist(a, b[1..])))
  }

  /** Each level is a sublist of the one below it ... */
  lemma {:induction false} LevelsNest(order: seq<Node>, heights: seq<nat>, q: nat, l: nat)
    requires |order| == |heights| && q <= |order|
    ensures Sublist(Level(order, heights, q, l + 1), Level(order, heights, q, l))
    decreases |order| - q
  {
    if q < |order| {
      LevelsNest(order, heights, q + 1, l);
      var above, below := Level(order, heights, q + 1, l + 1), Level(order, heights, q + 1, l);
      assert ([order[q]] + above)[1..] == above && ([order[q]] + below)[1..] == below;
    }
  }

  lemma {:induction false} LevelMember(order: seq<Node>, heights: seq<nat>, q: nat, l: nat, n: Node) returns (p: nat)
    requires |order| == |heights| && q <= |order| && n in Level(order, heights, q, l)
    ensures q <= p < |order| && order[p] == n
    decreases |order| - q
  {
    if heights[q] > l && n == order[q] {
      p := q;
    } else {
      p := LevelMember(order, heights, q + 1, l, n);
    }
  }

  /** ... in key order, and the lowest is the whole list. */
  lemma {:induction false} LevelIsSorted(order: seq<Node>, heights: seq<nat>, q: nat, l: nat)
    requires |order| == |heights| && q <= |order| && Increasing(order)
    ensures Increasing(Level(order, heights, q, l))
    ensures (forall p :: q <= p < |order| ==> heights[p] > l) ==> Level(order, heights, q, l) == order[q..]
    decreases |order| - q
  {
    if q < |order| {
      LevelIsSorted(order, heights, q + 1, l);
      var rest := Level(order, heights, q + 1, l);
      assert order[q..] == [order[q]] + order[q + 1..];
      forall i | 0 <= i < |rest| ensures order[q].key < rest[i].key {
        var p := LevelMember(order, heights, q + 1, l, rest[i]);
      }
    }
  }

  /** Raising one tower through level `i` catches the links that passed over it there. */
  lemma {:induction false} RaiseOne(heights: seq<nat>, s: nat, q: nat, l: nat)
    requires s < |heights| && q <= |heights|
    ensures
      var n := NextAt(heights, q, l);
      NextAt(heights[s := heights[s] + 1], q, l) == if l == heights[s] && q <= s < n then s else n
    decreases |heights| - q
  {
    if q < |heights| {
      RaiseOne(heights, s, q + 1, l);
    }
  }

  /** Only the link from the preceding tower passes over position `s`. */
  lemma PrevIsLast(heights: seq<nat>, s: nat, l: nat, pp: int, p: int)
    requires IsPrev(heights, s, l, pp) && s < |heights| && heights[s] <= l && -1 <= p < |heights|
    ensures p < pp ==> NextAt(heights, p + 1, l) <= pp
    ensures NextAt(heights, pp + 1, l) == NextAt(heights, s + 1, l)
  {
    NextAtIs(heights, pp + 1, l, NextAt(heights, s + 1, l));
  }

  /** Raising a tower by a level changes one link: the one from the tower before it. */
  lemma Catches(heights: seq<nat>, s: nat, i: nat, pp: int, p: int, l: nat)
    requires IsPrev(heights, s, i, pp) && s < |heights| && heights[s] == i && -1 <= p < |heights|
    requires l < TopOf(heights[s := i + 1], p)
    ensures NextAt(heights[s := i + 1], p + 1, l) == if l == i && p == pp then s else NextAt(heights, p + 1, l)
    ensures l < TopOf(heights, p) || (p == s && l == i)
    ensures p == s && l == i ==> NextAt(heights[s := i + 1], p + 1, l) == NextAt(heights, s + 1, i)
  {
    RaiseOne(heights, s, p + 1, l);
    PrevIsLast(heights, s, i, pp, p);
  }

  function Inserted<T>(xs: seq<T>, s: nat, x: T): seq<T>
    requires s <= |xs|
  {
    xs[..s] + [x] + xs[s..]
  }

  lemma NextInserted(heights: seq<nat>, s: nat, q: nat, l: nat)
    requires s <= |heights| && q <= |heights| + 1
    ensures |Inserted(heights, s, 0)| == |heights| + 1
    ensures
      var n := NextAt(heights, if q <= s then q else q - 1, l);
      NextAt(Inserted(heights, s, 0), q, l) == if n < s then n else n + 1
  {
    var heights1 := Inserted(heights, s, 0);
    var n := NextAt(heights, if q <= s then q else q - 1, l);
    var n1 := if n < s then n else n + 1;
    forall m | q <= m < n1 ensures heights1[m] <= l {
      InsertedAt(heights, s, 0, m);
    }
    NextAtIs(heights1, q, l, n1);
  }

  /** A tower of height 0 is passed over at every level. */
  lemma InsertNone(order: seq<Node>, heights: seq<nat>, s: nat, x: Node, q: nat, l: nat)
    requires |order| == |heights| && s <= |heights| && q <= |heights| + 1
    ensures |Inserted(heights, s, 0)| == |heights| + 1
    ensures NodeAt(Inserted(order, s, x), NextAt(Inserted(heights, s, 0), q, l)) ==
            NodeAt(order, NextAt(heights, if q <= s then q else q - 1, l))
  {
    hide NextAt;
    NextInserted(heights, s, q, l);
    var n := NextAt(heights, if q <= s then q else q - 1, l);
    InsertedAt(order, s, x, s);
    if n < |order| {
      InsertedAt(order, s, x, if n < s then n else n + 1);
    }
  }

  /** How many levels of position `p` are linked; the head stands at every level. */
  ghost function TopOf(heights: seq<nat>, p: int): nat
    requires -1 <= p < |heights|
  {
    if p < 0 then MAX_HEIGHT else heights[p]
  }

  lemma InsertedAt<T>(xs: seq<T>, s: nat, x: T, p: nat)
    requires s <= |xs| && p <= |xs|
    ensures |Inserted(xs, s, x)| == |xs| + 1
    ensures Inserted(xs, s, x)[p] == if p < s then xs[p] else if p == s then x else xs[p - 1]
  {
  }

  lemma StaysIncreasing(order: seq<Node>, s: nat, x: Node)
    requires s <= |order| && Increasing(order)
    requires (forall p :: 0 <= p < s ==> order[p].key < x.key) && (forall p :: s <= p < |order| ==> x.key < order[p].key)
    ensures Increasing(Inserted(order, s, x))
  {
    hide Inserted;
    forall p, q | 0 <= p < q < |Inserted(order, s, x)| ensures Inserted(order, s, x)[p].key < Inserted(order, s, x)[q].key {
      InsertedAt(order, s, x, 0);
      InsertedAt(order, s, x, p);
      InsertedAt(order, s, x, q);
    }
  }

  lemma Raised(heights: seq<nat>, s: nat, i: nat, bound: nat)
    requires s <= |heights| && i < bound && Bounded(heights, bound)
    ensures Inserted(heights, s, i)[s := i + 1] == Inserted(heights, s, i + 1)
    ensures Bounded(Inserted(heights, s, i + 1), bound)
  {
  }

  ghost predicate Bounded(heights: seq<nat>, bound: nat) {
    forall p :: 0 <= p < |heights| ==> 1 <= heights[p] <= bound
  }

  lemma InsertedKeys(order: seq<Node>, s: nat, x: Node)
    requires s <= |order|
    ensures (set n | n in Inserted(order, s, x) :: n.key) == (set n | n in order :: n.key) + {x.key}
  {
    assert forall n :: n in Inserted(order, s, x) <==> n in order || n == x by {
      assert order == order[..s] + order[s..];
    }
  }

  /** What the links of a list say: the nodes in order, and how many levels of each are linked.
      A node is published once its lowest level is. */
  datatype Links = Links(order: seq<Node>, heights: seq<nat>)

  ghost predicate Good(list: Links) {
    && |list.order| == |list.heights| && Increasing(list.order)
    && forall p :: 0 <= p < |list.heights| ==> list.heights[p] <= MAX_HEIGHT
  }

  // ----- what readers see of the writer -----

  /** One store of an insertion that a reader can see: a new node stands in the order, still
      unlinked; or one more of its levels is linked. Its own links are set before that, and
      no reader can follow them yet. */
  ghost predicate Store(a: Links, b: Links)
    requires Good(a) && Good(b)
  {
    || (exists s: nat, x :: x in b.order && Appears(a, b, s, x))
    || exists s: nat :: Rises(a, b, s)
  }

  ghost predicate Appears(a: Links, b: Links, s: nat, x: Node)
    requires Good(a) && Good(b)
  {
    && s <= |a.order| && x !in a.order
    && b == Links(Inserted(a.order, s, x), Inserted(a.heights, s, 0))
  }

  ghost predicate Rises(a: Links, b: Links, s: nat)
    requires Good(a) && Good(b)
  {
    s < |a.heights| && b == Links(a.order, a.heights[s := a.heights[s] + 1])
  }

  /** A list as it was, and as each store after that left it. */
  ghost predicate Stored(lists: seq<Links>) {
    && lists != [] && (forall i :: 0 <= i < |lists| ==> Good(lists[i]))
    && forall i :: 0 < i < |lists| ==> Store(lists[i - 1], lists[i])
  }

  lemma LastIsGood(lists: seq<Links>)
    requires Stored(lists)
    ensures Good(lists[|lists| - 1])
  {
  }

  lemma OneMoreStore(lists: seq<Links>, next: Links)
    requires Stored(lists) && Good(next) && Store(lists[|lists| - 1], next)
    ensures Stored(lists + [next])
  {
    hide Store, Good;
  }

  /** A list with a new node that is linked into `i` levels. */
  ghost function With(order: seq<Node>, heights: seq<nat>, s: nat, x: Node, i: nat): Links
    requires s <= |order| == |heights|
  {
    Links(Inserted(order, s, x), Inserted(heights, s, i))
  }

  lemma NodeAppears(order: seq<Node>, heights: seq<nat>, s: nat, x: Node)
    requires s <= |order| == |heights| && x !in order && Good(Links(order, heights)) && Good(With(order, heights, s, x, 0))
    ensures Store(Links(order, heights), With(order, heights, s, x, 0))
  {
    hide Good;
    var a, b := Links(order, heights), With(order, heights, s, x, 0);
    assert b.order[s] == x;
    assert Appears(a, b, s, x);
  }

  lemma TowerRises(order: seq<Node>, heights: seq<nat>, s: nat, x: Node, i: nat)
    requires s <= |order| == |heights| && Good(With(order, heights, s, x, i)) && Good(With(order, heights, s, x, i + 1))
    ensures Store(With(order, heights, s, x, i), With(order, heights, s, x, i + 1))
  {
    hide Good;
    var a, b := With(order, heights, s, x, i), With(order, heights, s, x, i + 1);
    assert b.heights == a.heights[s := i + 1];
    assert Rises(a, b, s);
  }

  class List {
    const head: Node
    var maxHeight: nat
    /** The nodes in level-0 order, and how many levels of each are linked. */
    ghost var order: seq<Node>
    ghost var heights: seq<nat>

    /** The links are those of the given towers over the given order. */
    ghost predicate Wired(order: seq<Node>, heights: seq<nat>)
      reads head, order
    {
      && Towers(order, heights)
      && forall p, l :: -1 <= p < |order| && 0 <= l < TopOf(heights, p) ==> Linked(order, heights, p, l)
    }

    ghost predicate Towers(order: seq<Node>, heights: seq<nat>)
      reads head, order
    {
      && |order| == |heights| && head !in order && |head.next| == MAX_HEIGHT
      && Increasing(order)
      && forall p :: 0 <= p < |order| ==> heights[p] <= |order[p].next| <= MAX_HEIGHT
    }

    ghost predicate Linked(order: seq<Node>, heights: seq<nat>, p: int, l: nat)
      requires -1 <= p < |order| == |heights|
      reads head, order
    {
      var n := if p < 0 then head else order[p];
      l < |n.next| && n.next[l] == NodeAt(order, NextAt(heights, p + 1, l))
    }

    ghost predicate Valid()
      reads this, head, order
    {
      && Wired(order, heights)
      && 1 <= maxHeight <= MAX_HEIGHT
      && Bounded(heights, maxHeight)
    }

    ghost function Keys(): set<Key>
      reads this
    {
      set n | n in order :: n.key
    }

    constructor ()
      ensures Valid() && fresh(head) && order == []
    {
      head := new Node(0.0, MAX_HEIGHT);
      maxHeight, order, heights := 1, [], [];
    }

    ghost function At(p: int): Node
      requires -1 <= p < |order|
      reads this
    {
      if p < 0 then head else order[p]
    }

    /** The node after which position `s` hangs at level `l`. */
    ghost predicate Precedes(order: seq<Node>, heights: seq<nat>, n: Node, s: nat, l: nat)
      requires |order| == |heights|
    {
      exists p :: IsPrev(heights, s, l, p) && n == if p < 0 then head else order[p]
    }

    lemma PrevAmong(order: seq<Node>, heights: seq<nat>, s: nat, x: Node, i: nat, n: Node) returns (p: int)
      requires |order| == |heights| && Precedes(order, heights, n, s, i)
      ensures IsPrev(Inserted(heights, s, i), s, i, p) && n == if p < 0 then head else Inserted(order, s, x)[p]
    {
      p :| IsPrev(heights, s, i, p) && n == if p < 0 then head else order[p];
    }

    predicate KeyIsAfterNode(key: Key, n: Node?) {
      n != null && n.key < key
    }

    /** Where the link out of position `p` leads, at a level its tower reaches. */
    lemma LinkOut(p: int, l: nat, key: Key, s: nat)
      requires Valid() && l < MAX_HEIGHT && IsRank(order, key, s)
      requires -1 <= p < s && (p >= 0 ==> heights[p] > l)
      ensures |order| == |heights| && s <= |order|
      ensures l < |At(p).next|
      ensures
        var n, next := NextAt(heights, p + 1, l), At(p).next[l];
        && p < n <= |order| && next == NodeAt(order, n)
        && (KeyIsAfterNode(key, next) <==> n < s)
        && (n < s ==> heights[n] > l && next == At(n))
        && (s <= n ==> IsPrev(heights, s, l, p) && Precedes(order, heights, At(p), s, l))
        && (s <= n && l == 0 ==> n == s && p == s - 1)
    {
      assert Linked(order, heights, p, l);
      assert NextAt(heights, p + 1, l) >= s ==> IsPrev(heights, s, l, p);
    }

    /** Searching the towers gives what scanning level 0 gives, whatever the heights; `prev`
        holds the node to relink at each level in use. */
    method FindGreaterOrEqual(key: Key) returns (node: Node?, prev: seq<Node>, ghost s: nat)
      requires Valid()
      ensures IsRank(order, key, s) && node == NodeAt(order, s)
      ensures |prev| == maxHeight
      ensures forall l :: 0 <= l < maxHeight ==> Precedes(order, heights, prev[l], s, l)
    {
      assert Increasing(order) && |order| == |heights| && 1 <= maxHeight <= MAX_HEIGHT;
      s := Rank(order, key);
      hide Valid, Wired, NextAt, IsPrev, IsRank, Precedes, Increasing;
      var x, level := head, maxHeight - 1;
      prev := seq(maxHeight, _ => head);
      ghost var p := -1;
      while true
        invariant |order| == |heights| && s <= |order| && maxHeight <= MAX_HEIGHT
        invariant 0 <= level < maxHeight && |prev| == maxHeight
        invariant -1 <= p < s && x == At(p) && (p >= 0 ==> heights[p] > level)
        invariant forall l :: level < l < maxHeight ==> Precedes(order, heights, prev[l], s, l)
        decreases level, s - p
      {
        LinkOut(p, level, key, s);
        var next := x.next[level];
        ghost var n := NextAt(heights, p + 1, level);
        if KeyIsAfterNode(key, next) {
          x, p := next, n;
        } else {
          prev := prev[level := x];
          if level == 0 {
            assert n == s;
            return next, prev, s;
          }
          level := level - 1;
        }
      }
    }

    /** The latest node below `key`, or the head. */
    method FindLessThan(key: Key) returns (x: Node, ghost s: nat)
      requires Valid()
      ensures IsRank(order, key, s) && x == At(s - 1)
      ensures x in order <==> exists n :: n in order && n.key < key
      ensures x in order ==> x.key < key && forall n :: n in order && n.key < key ==> n.key <= x.key
      ensures x !in order ==> x == head
    {
      assert Increasing(order) && |order| == |heights| && 1 <= maxHeight <= MAX_HEIGHT;
      s := Rank(order, key);
      hide Valid, Wired, NextAt, IsPrev, IsRank, Precedes, Increasing;
      x := head;
      var level := maxHeight - 1;
      ghost var p := -1;
      while true
        invariant |order| == |heights| && s <= |order| && maxHeight <= MAX_HEIGHT
        invariant 0 <= level < maxHeight
        invariant -1 <= p < s && x == At(p) && (p >= 0 ==> heights[p] > level)
        decreases level, s - p
      {
        LinkOut(p, level, key, s);
        var next := x.next[level];
        if next == null || next.key >= key {
          if level == 0 {
            BelowRank(key, s);
            return;
          }
          level := level - 1;
        } else {
          p := NextAt(heights, p + 1, level);
          x := next;
        }
      }
    }

    /** The node before position `s` is the latest one below the key. */
    lemma BelowRank(key: Key, s: nat)
      requires Valid() && IsRank(order, key, s)
      ensures
        var x := At(s - 1);
        && (x in order <==> exists n :: n in order && n.key < key)
        && (x in order ==> x.key < key && forall n :: n in order && n.key < key ==> n.key <= x.key)
        && (x !in order ==> x == head)
    {
      if s > 0 {
        assert order[s - 1] in order;
      }
    }

    /** The last node, or the head of an empty list. */
    method FindLast() returns (x: Node)
      requires Valid()
      ensures x == At(|order| - 1)
    {
      x := head;
      var level := maxHeight - 1;
      ghost var p := -1;
      while true
        invariant 0 <= level < maxHeight
        invariant -1 <= p < |order| && x == At(p) && (p >= 0 ==> heights[p] > level)
        decreases level, |order| - p
      {
        ghost var n := NextAt(heights, p + 1, level);
        assert Linked(order, heights, p, level);
        var next := x.next[level];
        assert next == NodeAt(order, n);
        if next == null {
          if level == 0 {
            return;
          }
          level := level - 1;
        } else {
          x, p := next, n;
        }
      }
    }

    lemma HoldsLink(s: nat, x: Node, p: int, l: nat)
      requires Wired(order, heights) && s <= |order| && -1 <= p <= |order| && l < TopOf(Inserted(heights, s, 0), p)
      ensures Linked(Inserted(order, s, x), Inserted(heights, s, 0), p, l)
    {
      InsertNone(order, heights, s, x, p + 1, l);
      if p < 0 {
        assert Linked(order, heights, p, l);
      } else {
        InsertedAt(heights, s, 0, p);
        InsertedAt(order, s, x, p);
        assert p < s ==> Linked(order, heights, p, l);
        assert p > s ==> Linked(order, heights, p - 1, l);
      }
    }

    lemma HoldsTower(s: nat, x: Node)
      requires Towers(order, heights) && s <= |order| && x != head && x !in order && |x.next| <= MAX_HEIGHT
      requires (forall p :: 0 <= p < s ==> order[p].key < x.key) && (forall p :: s <= p < |order| ==> x.key < order[p].key)
      ensures Towers(Inserted(order, s, x), Inserted(heights, s, 0))
      ensures |Inserted(order, s, x)| == |Inserted(heights, s, 0)| == |order| + 1
    {
      hide Increasing;
      StaysIncreasing(order, s, x);
      InsertedAt(order, s, x, s);
      InsertedAt(heights, s, 0, s);
      forall p | 0 <= p <= |order|
        ensures Inserted(order, s, x)[p] != head && Inserted(heights, s, 0)[p] <= |Inserted(order, s, x)[p].next| <= MAX_HEIGHT
      {
        InsertedAt(order, s, x, p);
        InsertedAt(heights, s, 0, p);
      }
    }

    /** An unlinked node can stand in the order without disturbing any link. */
    lemma HoldsUnlinked(s: nat, x: Node)
      requires Wired(order, heights) && s <= |order| && x != head && x !in order && |x.next| <= MAX_HEIGHT
      requires (forall p :: 0 <= p < s ==> order[p].key < x.key) && (forall p :: s <= p < |order| ==> x.key < order[p].key)
      ensures Wired(Inserted(order, s, x), Inserted(heights, s, 0))
    {
      var order1, heights1 := Inserted(order, s, x), Inserted(heights, s, 0);
      HoldsTower(s, x);
      hide NextAt, Inserted, Increasing;
      forall p, l | -1 <= p < |order1| && 0 <= l < TopOf(heights1, p) ensures Linked(order1, heights1, p, l) {
        HoldsLink(s, x, p, l);
      }
    }

    lemma WiredIsGood(order: seq<Node>, heights: seq<nat>)
      requires Wired(order, heights)
      ensures Good(Links(order, heights))
    {
    }

    /** The first store of a turn of the insertion loop sets one link of `x`, at a level that no
        link reaches: the list is as it was. */
    method PointAhead(x: Node, prev: Node, i: nat, ghost s: nat, ghost pp: int, ghost order1: seq<Node>, ghost heights1: seq<nat>)
      requires Wired(order1, heights1) && s < |order1| && order1[s] == x && heights1[s] == i < |x.next|
      requires IsPrev(heights1, s, i, pp) && prev == (if pp < 0 then head else order1[pp])
      modifies x
      ensures Wired(order1, heights1)
      ensures i < |x.next| == old(|x.next|) && x.next[i] == NodeAt(order1, NextAt(heights1, s + 1, i))
      ensures forall l :: 0 <= l < |x.next| && l != i ==> x.next[l] == old(x.next[l])
    {
      hide NextAt;
      assert Linked(order1, heights1, pp, i);
      PrevIsLast(heights1, s, i, pp, pp);
      x.next := x.next[i := prev.next[i]];
      forall p, l | -1 <= p < |order1| && 0 <= l < TopOf(heights1, p) ensures Linked(order1, heights1, p, l) {
        assert old(Linked(order1, heights1, p, l));
      }
    }

    /** The second store publishes `x` at level `i`. */
    method Publish(x: Node, prev: Node, i: nat, ghost s: nat, ghost pp: int, ghost order1: seq<Node>, ghost heights1: seq<nat>)
      requires Wired(order1, heights1) && s < |order1| && order1[s] == x && heights1[s] == i < |x.next|
      requires x.next[i] == NodeAt(order1, NextAt(heights1, s + 1, i))
      requires IsPrev(heights1, s, i, pp) && prev == (if pp < 0 then head else order1[pp])
      modifies prev
      ensures Wired(order1, heights1[s := i + 1])
      ensures |prev.next| == old(|prev.next|)
    {
      hide NextAt;
      ghost var heights2 := heights1[s := i + 1];
      assert Linked(order1, heights1, pp, i);
      prev.next := prev.next[i := x];
      forall p, l | -1 <= p < |order1| && 0 <= l < TopOf(heights2, p) ensures Linked(order1, heights2, p, l) {
        Catches(heights1, s, i, pp, p, l);
        assert l < TopOf(heights1, p) ==> old(Linked(order1, heights1, p, l));
      }
    }

    /** The node to relink at each level of a new tower; the head stands in for levels not
        in use so far. */
    method FindPrev(key: Key, height: nat) returns (prev: seq<Node>, ghost s: nat)
      requires Valid() && key !in Keys() && 1 <= height <= MAX_HEIGHT
      modifies this`maxHeight
      ensures Valid() && height <= maxHeight
      ensures IsRank(order, key, s) && height <= |prev|
      ensures forall l :: 0 <= l < height ==> Precedes(order, heights, prev[l], s, l)
    {
      var node;
      node, prev, s := FindGreaterOrEqual(key);
      NothingAbove(s);
      hide Wired, Precedes, IsRank;
      if height > maxHeight {
        prev := prev + seq(height - maxHeight, _ => head);
        maxHeight := height;
      }
    }

    /** Adds exactly one key. After every turn of the loop, and between its stores, the list is
        valid: searches meanwhile see the old keys, or all of them and the new one. What they can
        see is `stores`. */
    method Insert(key: Key, height: nat) returns (ghost s: nat, ghost x: Node, ghost stores: seq<Links>)
      requires Valid() && key !in Keys() && 1 <= height <= MAX_HEIGHT
      modifies this, head, order
      ensures Valid() && Keys() == old(Keys()) + {key}
      ensures fresh(x) && x.key == key && IsRank(old(order), key, s)
      ensures order == Inserted(old(order), s, x) && heights == Inserted(old(heights), s, height)
      ensures |stores| == height + 2 && Stored(stores) && stores[0] == Links(old(order), old(heights))
      ensures |old(order)| == |old(heights)| && s <= |old(order)|
      ensures forall i :: 0 <= i <= height ==> stores[i + 1] == With(old(order), old(heights), s, x, i)
    {
      var prev;
      prev, s := FindPrev(key, height);
      RankIsFree(key, s);
      hide Wired, NextAt, Inserted, Precedes, IsRank, Good, Store;
      var node := new Node(key, height);
      x := node;
      HoldsUnlinked(s, x);
      InsertedKeys(order, s, x);
      FirstStore(s, x);
      stores := LinkAll(node, prev, height, s, order, heights);
    }

    lemma FirstStore(s: nat, x: Node)
      requires Wired(order, heights) && s <= |order| == |heights| && x !in order
      requires Wired(Inserted(order, s, x), Inserted(heights, s, 0))
      ensures Stored([Links(order, heights), With(order, heights, s, x, 0)])
    {
      hide Wired, Inserted, Good, Store;
      WiredIsGood(order, heights);
      WiredIsGood(Inserted(order, s, x), Inserted(heights, s, 0));
      NodeAppears(order, heights, s, x);
    }

    method LinkAll(x: Node, prev: seq<Node>, height: nat, ghost s: nat, ghost order0: seq<Node>, ghost heights0: seq<nat>)
      returns (ghost stores: seq<Links>)
      requires s <= |order0| == |heights0| && Linking(s, x, 0, order0, heights0) && Bounded(heights0, maxHeight)
      requires 1 <= height == |x.next| && height <= |prev| && height <= maxHeight && x != head && x !in order0
      requires forall l :: 0 <= l < height ==> Precedes(order0, heights0, prev[l], s, l)
      requires Stored([Links(order0, heights0), With(order0, heights0, s, x, 0)])
      modifies x, head, order0, this`order, this`heights
      ensures Linking(s, x, height, order0, heights0)
      ensures |stores| == height + 2 && stores[0] == Links(order0, heights0) && Stored(stores)
      ensures forall l :: 0 <= l <= height ==> stores[l + 1] == With(order0, heights0, s, x, l)
    {
      hide Linking, Precedes, Bounded, Inserted, Stored, Store, Good, With;
      stores := [Links(order0, heights0), With(order0, heights0, s, x, 0)];
      for i := 0 to height
        invariant |x.next| == height
        invariant Linking(s, x, i, order0, heights0)
        invariant |stores| == i + 2 && stores[0] == Links(order0, heights0) && Stored(stores)
        invariant forall l :: 0 <= l <= i ==> stores[l + 1] == With(order0, heights0, s, x, l)
      {
        PrevIsOurs(order0, heights0, prev[i], s, i);
        Link(x, prev[i], i, s, order0, heights0);
        LastIsGood(stores);
        LinkingRises(s, x, i, order0, heights0);
        OneMoreStore(stores, With(order0, heights0, s, x, i + 1));
        stores := stores + [With(order0, heights0, s, x, i + 1)];
      }
    }

    lemma PrevIsOurs(order: seq<Node>, heights: seq<nat>, n: Node, s: nat, l: nat)
      requires |order| == |heights| && Precedes(order, heights, n, s, l)
      ensures n == head || n in order
    {
    }

    /** `x` is linked into the first `i` levels, and the list is valid. */
    ghost predicate Linking(s: nat, x: Node, i: nat, order0: seq<Node>, heights0: seq<nat>)
      requires s <= |order0| == |heights0|
      reads this, head, order, Inserted(order0, s, x)
    {
      && Valid()
      && Wired(Inserted(order0, s, x), Inserted(heights0, s, i))
      && if i == 0 then order == order0 && heights == heights0
         else order == Inserted(order0, s, x) && heights == Inserted(heights0, s, i)
    }

    lemma LinkingRises(s: nat, x: Node, i: nat, order0: seq<Node>, heights0: seq<nat>)
      requires s <= |order0| == |heights0| && Linking(s, x, i + 1, order0, heights0)
      ensures Good(With(order0, heights0, s, x, i + 1))
      ensures Good(With(order0, heights0, s, x, i)) ==> Store(With(order0, heights0, s, x, i), With(order0, heights0, s, x, i + 1))
    {
      hide Valid, Wired, Good, Store;
      WiredIsGood(Inserted(order0, s, x), Inserted(heights0, s, i + 1));
      if Good(With(order0, heights0, s, x, i)) {
        TowerRises(order0, heights0, s, x, i);
      }
    }

    /** One turn of the insertion loop; the list is valid between its two stores as well. */
    method Link(x: Node, prev: Node, i: nat, ghost s: nat, ghost order0: seq<Node>, ghost heights0: seq<nat>)
      requires s <= |order0| == |heights0| && Linking(s, x, i, order0, heights0) && Precedes(order0, heights0, prev, s, i)
      requires x != head && x !in order0 && i < |x.next| && i < maxHeight
      requires Bounded(heights0, maxHeight)
      modifies x, prev, this`order, this`heights
      ensures Linking(s, x, i + 1, order0, heights0)
      ensures |x.next| == old(|x.next|)
    {
      hide Wired, Linked, Towers, NextAt, Precedes, IsPrev;
      ghost var order1, heights1 := Inserted(order0, s, x), Inserted(heights0, s, i);
      ghost var pp := PrevAmong(order0, heights0, s, x, i, prev);
      assert order1[s] == x && heights1[s] == i;
      hide Inserted;
      PointAhead(x, prev, i, s, pp, order1, heights1);
      assert Valid();
      Publish(x, prev, i, s, pp, order1, heights1);
      Raised(heights0, s, i, maxHeight);
      order, heights := order1, Inserted(heights0, s, i + 1);
    }

    lemma RankIsFree(key: Key, s: nat)
      requires Valid() && key !in Keys() && IsRank(order, key, s)
      ensures forall p :: s <= p < |order| ==> key < order[p].key
      ensures forall p :: 0 <= p < s ==> order[p].key < key
      ensures s <= |order| == |heights|
    {
      assert forall p :: 0 <= p < |order| ==> order[p] in order;
    }

    lemma NothingAbove(s: nat)
      requires Valid() && s <= |order|
      ensures |order| == |heights|
      ensures forall l :: maxHeight <= l < MAX_HEIGHT ==> Precedes(order, heights, head, s, l)
    {
      forall l | maxHeight <= l < MAX_HEIGHT ensures Precedes(order, heights, head, s, l) {
        assert IsPrev(heights, s, l, -1);
      }
    }

    method Contains(key: Key) returns (found: bool)
      requires Valid()
      ensures found <==> key in Keys()
    {
      var x, prev, s := FindGreaterOrEqual(key);
      found := x != null && x.key == key;
      assert s < |order| ==> order[s] in order;
      assert forall n :: n in order && n.key == key ==> exists p :: 0 <= p < |order| && order[p] == n;
    }
  }

  lemma {:induction false} Rank(order: seq<Node>, key: Key) returns (s: nat)
    requires Increasing(order)
    ensures IsRank(order, key, s)
  {
    if order == [] || order[|order| - 1].key < key {
      s := |order|;
    } else {
      s := Rank(order[..|order| - 1], key);
    }
  }
}
