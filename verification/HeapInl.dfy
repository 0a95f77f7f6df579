/** The intrusive binary min-heap of the timer queue: nodes linked by left, right and
    parent pointers, with the slot of the last node found from the bits of the count. */
module HeapInl {

  /** A node embedded in what the heap orders; the order looks at `data` alone. */
  class Node<D> {
    var left: Node?<D>
    var right: Node?<D>
    var parent: Node?<D>
    var data: D

    constructor (data: D)
      ensures this.data == data
    {
      left, right, parent := null, null, null;
      this.data := data;
    }
  }

  /** What the heap asks of a comparison: no two are less than each other, and being not less
      is passed on. Every strict total order is one. */
  ghost predicate StrictWeak<D(!new)>(less: (D, D) -> bool) {
    && (forall a, b :: less(a, b) ==> !less(b, a))
    && forall a, b, c :: !less(a, b) && !less(b, c) ==> !less(a, c)
  }

  ghost predicate StrictTotal<D(!new)>(less: (D, D) -> bool) {
    && (forall a, b :: !(less(a, b) && less(b, a)))
    && (forall a, b, c :: less(a, b) && less(b, c) ==> less(a, c))
    && forall a, b :: a != b ==> less(a, b) || less(b, a)
  }

  lemma TotalIsWeak<D(!new)>(less: (D, D) -> bool)
    requires StrictTotal(less)
    ensures StrictWeak(less)
  {
    forall a, b, c | !less(a, b) && !less(b, c) ensures !less(a, c) {
      assert a == b || less(b, a);
    }
  }

  lemma Asymmetric<D(!new)>(less: (D, D) -> bool, a: D, b: D)
    requires StrictWeak(less)
    ensures less(a, b) ==> !less(b, a)
  {
  }

  lemma NotLessPasses<D(!new)>(less: (D, D) -> bool, a: D, b: D, c: D)
    requires StrictWeak(less)
    ensures !less(a, b) && !less(b, c) ==> !less(a, c)
  {
  }

  const UINT_MAX: nat := 0xFFFF_FFFF

  /** Following `k` bits of `path` down from the node numbered `c`, root being 1. */
  function Descend(c: nat, path: nat, k: nat): nat
    decreases k
  {
    if k == 0 then c else Descend(2 * c + path % 2, path / 2, k - 1)
  }

  lemma {:induction false} DescendGrows(c: nat, path: nat, k: nat)
    ensures Descend(c, path, k) >= c
    ensures k > 0 ==> Descend(c, path, k) >= 2 * c
    decreases k
  {
    if k > 0 {
      DescendGrows(2 * c + path % 2, path / 2, k - 1);
    }
  }

  lemma DescendNone(c: nat, path: nat)
    ensures Descend(c, path, 0) == c
  {
  }

  lemma DescendOne(n: nat, path: nat, k: nat)
    ensures Descend(n / 2, path * 2 + n % 2, k + 1) == Descend(n, path, k)
  {
    var longer := path * 2 + n % 2;
    assert longer % 2 == n % 2 && longer / 2 == path && 2 * (n / 2) + n % 2 == n;
  }

  /** The path to the node numbered `number`: following it from the root gets there. */
  method PathTo(number: nat) returns (path: nat, k: nat)
    requires number >= 1
    ensures Descend(1, path, k) == number
  {
    hide Descend;
    path, k := 0, 0;
    var n := number;
    DescendNone(n, path);
    while n >= 2
      invariant n >= 1 && Descend(n, path, k) == number
    {
      DescendOne(n, path, k);
      path, k, n := path * 2 + n % 2, k + 1, n / 2;
    }
  }

  /** A link in the tree: the root pointer or one of a node's two child pointers. */
  datatype Slot<!D> = Root | LeftOf(node: Node<D>) | RightOf(node: Node<D>)

  ghost function At<D>(ns: seq<Node<D>>, i: int): Node?<D> {
    if 0 <= i < |ns| then ns[i] else null
  }

  /** A node's pointers. */
  datatype Links<!D> = Links(left: Node?<D>, right: Node?<D>, parent: Node?<D>)

  ghost function LinksOf<D>(n: Node<D>): Links<D>
    reads n`left, n`right, n`parent
  {
    Links(n.left, n.right, n.parent)
  }

  /** The pointers of node `i` in a complete tree. */
  ghost function TreeLinks<D>(ns: seq<Node<D>>, i: nat): Links<D> {
    Links(At(ns, 2 * i + 1), At(ns, 2 * i + 2), if i == 0 then null else At(ns, (i - 1) / 2))
  }

  ghost predicate LinkedAt<D>(ns: seq<Node<D>>, i: int)
    requires 0 <= i < |ns|
    reads {ns[i]}`left, {ns[i]}`right, {ns[i]}`parent
  {
    LinksOf(ns[i]) == TreeLinks(ns, i)
  }

  ghost predicate AllLinked<D>(ns: seq<Node<D>>)
    reads (set n | n in ns)`left, (set n | n in ns)`right, (set n | n in ns)`parent
  {
    forall i :: 0 <= i < |ns| ==> LinkedAt(ns, i)
  }

  ghost function Was<D>(ns: seq<Node<D>>): map<Node<D>, Links<D>>
    reads (set n | n in ns)`left, (set n | n in ns)`right, (set n | n in ns)`parent
  {
    map n | n in Set(ns) :: LinksOf(n)
  }

  /** The pointers of the nodes of a complete tree. */
  ghost predicate TreeWas<D>(ns: seq<Node<D>>, was: map<Node<D>, Links<D>>) {
    was.Keys == Set(ns) && forall i :: 0 <= i < |ns| ==> TreeAt(ns, was, i)
  }

  ghost predicate TreeAt<D>(ns: seq<Node<D>>, was: map<Node<D>, Links<D>>, i: nat)
    requires i < |ns|
  {
    ns[i] in was && was[ns[i]] == TreeLinks(ns, i)
  }

  /** What the nodes hold. */
  ghost function Datas<D>(ns: seq<Node<D>>): (ds: seq<D>)
    reads (set n | n in ns)`data
    ensures |ds| == |ns| && forall i :: 0 <= i < |ns| ==> ds[i] == ns[i].data
  {
    if ns == [] then [] else Datas(ns[..|ns| - 1]) + [ns[|ns| - 1].data]
  }

  // ----- order along the tree -----

  ghost predicate OrderedAt<D(!new)>(less: (D, D) -> bool, ds: seq<D>, i: int)
    requires 0 < i < |ds|
  {
    !less(ds[i], ds[(i - 1) / 2])
  }

  ghost predicate AllOrdered<D(!new)>(less: (D, D) -> bool, ds: seq<D>) {
    forall i :: 0 < i < |ds| ==> OrderedAt(less, ds, i)
  }

  /** Ordered except that the node at `c` may be less than its parent. */
  ghost predicate OrderedButAbove<D(!new)>(less: (D, D) -> bool, ds: seq<D>, c: nat) {
    (forall i :: 0 < i < |ds| && i != c ==> OrderedAt(less, ds, i))
    && forall i :: 0 < c < i < |ds| && (i - 1) / 2 == c ==> NotLessUp(less, ds, c, i)
  }

  /** Ordered except that the node at `c` may be out of order with its parent or with
      its children. */
  ghost predicate OrderedButAt<D(!new)>(less: (D, D) -> bool, ds: seq<D>, c: nat) {
    (forall i :: 0 < i < |ds| && i != c && (i - 1) / 2 != c ==> OrderedAt(less, ds, i))
    && forall i :: 0 < c < i < |ds| && (i - 1) / 2 == c ==> NotLessUp(less, ds, c, i)
  }

  /** Node `i`, a child of `c`, is not less than the parent of `c`. */
  ghost predicate NotLessUp<D(!new)>(less: (D, D) -> bool, ds: seq<D>, c: nat, i: nat)
    requires 0 < c < |ds| && i < |ds|
  {
    !less(ds[i], ds[(c - 1) / 2])
  }

  ghost predicate NotLess<D(!new)>(less: (D, D) -> bool, ds: seq<D>, i: nat, j: nat)
    requires i < |ds| && j < |ds|
  {
    !less(ds[i], ds[j])
  }

  lemma {:induction false} RootIsLeast<D(!new)>(less: (D, D) -> bool, ds: seq<D>, i: nat)
    requires StrictWeak(less) && AllOrdered(less, ds) && i < |ds|
    ensures !less(ds[i], ds[0])
  {
    if i > 0 {
      RootIsLeast(less, ds, (i - 1) / 2);
      assert OrderedAt(less, ds, i);
      NotLessPasses(less, ds[i], ds[(i - 1) / 2], ds[0]);
    } else {
      Asymmetric(less, ds[0], ds[0]);
    }
  }

  lemma MovedUp<D(!new)>(less: (D, D) -> bool, ds: seq<D>, p: nat, c: nat, after: seq<D>)
    requires p < c < |ds| && p == (c - 1) / 2 && after == ds[p := ds[c]][c := ds[p]]
    requires StrictWeak(less) && OrderedButAbove(less, ds, c) && less(ds[c], ds[p])
    ensures OrderedButAbove(less, after, p)
  {
    hide StrictWeak;
    Asymmetric(less, ds[c], ds[p]);
    forall i | 0 < i < |after| && i != p ensures OrderedAt(less, after, i) {
      assert i != c ==> OrderedAt(less, ds, i);
      assert (i - 1) / 2 == c ==> NotLessUp(less, ds, c, i);
      NotLessPasses(less, ds[i], ds[p], ds[c]);
    }
    forall i | 0 < p < i < |after| && (i - 1) / 2 == p ensures NotLessUp(less, after, p, i) {
      assert OrderedAt(less, ds, p) && (i != c ==> OrderedAt(less, ds, i));
      NotLessPasses(less, ds[i], ds[p], ds[(p - 1) / 2]);
    }
  }

  lemma MovedDown<D(!new)>(less: (D, D) -> bool, ds: seq<D>, c: nat, s: nat, after: seq<D>)
    requires StrictWeak(less) && OrderedButAt(less, ds, c) && IsSmallest(less, ds, c, s) && after == ds[c := ds[s]][s := ds[c]]
    ensures OrderedButAt(less, after, s)
  {
    hide StrictWeak;
    Asymmetric(less, ds[s], ds[c]);
    forall i | 0 < i < |after| && i != s && (i - 1) / 2 != s ensures OrderedAt(less, after, i) {
      if i == c {
        assert NotLessUp(less, ds, c, s);
      } else if (i - 1) / 2 == c {
        assert NotLess(less, ds, i, s);
      } else {
        assert OrderedAt(less, ds, i);
      }
    }
    forall i | s < i < |after| && (i - 1) / 2 == s ensures NotLessUp(less, after, s, i) {
      assert OrderedAt(less, ds, i);
    }
  }

  /** No child of `c` is less than it, so only its own parent may be out of order. */
  lemma Settled<D(!new)>(less: (D, D) -> bool, ds: seq<D>, c: nat)
    requires c < |ds| && OrderedButAt(less, ds, c)
    requires NoChildLess(less, ds, c)
    ensures OrderedButAbove(less, ds, c)
  {
    forall i | 0 < i < |ds| && i != c ensures OrderedAt(less, ds, i) {
      assert (i - 1) / 2 == c ==> i == 2 * c + 1 || i == 2 * c + 2;
    }
  }

  /** Nothing less than node `c` among its children. */
  ghost predicate NoChildLess<D(!new)>(less: (D, D) -> bool, ds: seq<D>, c: nat)
    requires c < |ds|
  {
    (2 * c + 1 < |ds| ==> !less(ds[2 * c + 1], ds[c])) && (2 * c + 2 < |ds| ==> !less(ds[2 * c + 2], ds[c]))
  }

  /** A child of `c` that is less than it, and that no child is less than. */
  ghost predicate IsSmallest<D(!new)>(less: (D, D) -> bool, ds: seq<D>, c: nat, s: nat) {
    c < s < |ds| && c == (s - 1) / 2 && less(ds[s], ds[c])
    && forall i :: 0 < i < |ds| && (i - 1) / 2 == c ==> NotLess(less, ds, i, s)
  }

  lemma LessPasses<D(!new)>(less: (D, D) -> bool, a: D, b: D, c: D)
    requires StrictWeak(less) && less(a, b) && less(b, c)
    ensures less(a, c)
  {
    Asymmetric(less, b, c);
    NotLessPasses(less, a, c, b);
  }

  /** The child that a sift down goes to is less than its parent and not greater than its sibling. */
  lemma Smallest<D(!new)>(less: (D, D) -> bool, ds: seq<D>, c: nat, s: nat)
    requires StrictWeak(less) && c < s < |ds| && c == (s - 1) / 2
    requires s == 2 * c + 1 ==> less(ds[s], ds[c]) && (s + 1 < |ds| ==> !less(ds[s + 1], ds[s]))
    requires s == 2 * c + 2 ==> if less(ds[s - 1], ds[c]) then less(ds[s], ds[s - 1]) else less(ds[s], ds[c])
    ensures IsSmallest(less, ds, c, s)
  {
    hide StrictWeak;
    Asymmetric(less, ds[s], ds[s]);
    Asymmetric(less, ds[s], ds[c]);
    if s == 2 * c + 2 {
      Asymmetric(less, ds[s], ds[s - 1]);
      NotLessPasses(less, ds[s - 1], ds[c], ds[s]);
      if less(ds[s - 1], ds[c]) {
        LessPasses(less, ds[s], ds[s - 1], ds[c]);
      }
    }
    forall i | 0 < i < |ds| && (i - 1) / 2 == c ensures NotLess(less, ds, i, s) {
      assert i == 2 * c + 1 || i == 2 * c + 2;
    }
  }

  /** A longer list in order, without its last. */
  lemma ShorterOrdered<D(!new)>(less: (D, D) -> bool, ds: seq<D>, shorter: seq<D>)
    requires AllOrdered(less, ds) && shorter <= ds
    ensures AllOrdered(less, shorter)
  {
    forall i | 0 < i < |shorter| ensures OrderedAt(less, shorter, i) {
      assert OrderedAt(less, ds, i);
    }
  }

  lemma LongerOrdered<D(!new)>(less: (D, D) -> bool, ds: seq<D>, d: D)
    requires AllOrdered(less, ds)
    ensures OrderedButAbove(less, ds + [d], |ds|)
  {
    forall i | 0 < i < |ds| ensures OrderedAt(less, ds + [d], i) {
      assert OrderedAt(less, ds, i);
    }
  }

  lemma ReplacedOrdered<D(!new)>(less: (D, D) -> bool, ds: seq<D>, r: nat, d: D)
    requires StrictWeak(less) && AllOrdered(less, ds) && r < |ds|
    ensures OrderedButAt(less, ds[r := d], r)
  {
    hide StrictWeak;
    var after := ds[r := d];
    forall i | 0 < i < |after| && i != r && (i - 1) / 2 != r ensures OrderedAt(less, after, i) {
      assert OrderedAt(less, ds, i);
    }
    forall i | 0 < r < i < |after| && (i - 1) / 2 == r ensures NotLessUp(less, after, r, i) {
      assert OrderedAt(less, ds, i) && OrderedAt(less, ds, r);
      NotLessPasses(less, ds[i], ds[r], ds[(r - 1) / 2]);
    }
  }

  // ----- the nodes of a list -----

  ghost function Set<D>(ns: seq<Node<D>>): set<Node<D>> {
    set n | n in ns
  }

  ghost predicate Distinct<D>(ns: seq<Node<D>>) {
    forall i, j :: 0 <= i < j < |ns| ==> ns[i] != ns[j]
  }

  lemma SameElements<D>(ns: seq<Node<D>>, p: nat, c: nat, after: seq<Node<D>>)
    requires p < c < |ns| && after == ns[p := ns[c]][c := ns[p]]
    ensures Set(after) == Set(ns) && (Distinct(ns) ==> Distinct(after))
  {
    forall n | n in ns ensures n in after {
      var i :| 0 <= i < |ns| && ns[i] == n;
      assert after[if i == p then c else if i == c then p else i] == n;
    }
  }

  lemma DatasTraded<D>(ns: seq<Node<D>>, p: nat, c: nat, after: seq<Node<D>>)
    requires p < c < |ns| && after == ns[p := ns[c]][c := ns[p]]
    ensures Datas(after) == Datas(ns)[p := ns[c].data][c := ns[p].data]
  {
  }

  lemma ShorterElements<D>(ns: seq<Node<D>>, shorter: seq<Node<D>>, last: Node<D>)
    requires shorter + [last] == ns && last !in shorter
    ensures Set(shorter) == Set(ns) - {last}
  {
    forall n | n in ns && n != last ensures n in shorter {
    }
  }

  lemma ReplacedElements<D>(ns: seq<Node<D>>, r: nat, child: Node<D>)
    requires Distinct(ns) && r < |ns|
    ensures Set(ns[r := child]) == Set(ns) - {ns[r]} + {child}
  {
    var after := ns[r := child];
    forall n | n in ns && n != ns[r] ensures n in after {
      var i :| 0 <= i < |ns| && ns[i] == n;
      assert after[i] == n;
    }
    assert after[r] in after;
  }

  // ----- trading places -----

  ghost function OtherChild<D>(w: Links<D>, child: Node<D>): Node?<D> {
    if w.left == child then w.right else w.left
  }

  /** The nodes around a parent and its child are distinct, as they are in any tree. */
  ghost predicate Around<D>(p: Links<D>, c: Links<D>, parent: Node<D>, child: Node<D>) {
    var s, l, r, g := OtherChild(p, child), c.left, c.right, p.parent;
    && parent != child && c.parent == parent && (p.left == child || p.right == child) && p.left != p.right
    && s != parent && s != child && l != parent && l != child && r != parent && r != child && g != parent && g != child
    && (s != null ==> s != l && s != r && s != g)
    && (l != null ==> l != r && l != g) && (r != null ==> r != g)
  }

  ghost predicate HangsFrom<D>(was: map<Node<D>, Links<D>>, g: Node?<D>, n: Node<D>) {
    g == null || (g in was && (was[g].left == n || was[g].right == n))
  }

  ghost predicate Known<D>(was: map<Node<D>, Links<D>>, n: Node?<D>) {
    n == null || n in was
  }

  /** The pointers of `n` once `child` has traded places with its parent. */
  ghost function Swapped<D>(was: map<Node<D>, Links<D>>, parent: Node<D>, child: Node<D>, n: Node<D>): Links<D>
    requires parent in was && child in was && n in was
  {
    var p, c, w := was[parent], was[child], was[n];
    if n == parent then Links(c.left, c.right, child)
    else if n == child then
      Links(if p.left == child then parent else p.left, if p.left == child then p.right else parent, p.parent)
    else
      Links(if n == p.parent && w.left == parent then child else w.left,
            if n == p.parent && w.left != parent then child else w.right,
            if n == OtherChild(p, child) then child else if n == c.left || n == c.right then parent else w.parent)
  }

  /** ... before the link that led to the parent is redirected, for any other node. */
  ghost function Rebased<D>(was: map<Node<D>, Links<D>>, parent: Node<D>, child: Node<D>, n: Node<D>): Links<D>
    requires parent in was && child in was && n in was
  {
    var p, c, w := was[parent], was[child], was[n];
    Links(w.left, w.right, if n == OtherChild(p, child) then child else if n == c.left || n == c.right then parent else w.parent)
  }

  ghost function Redirected<D>(g: Links<D>, parent: Node<D>, child: Node<D>): Links<D> {
    Links(if g.left == parent then child else g.left, if g.left == parent then g.right else child, g.parent)
  }

  ghost function Exchanged<D>(p: Links<D>, parent: Node<D>, child: Node<D>): Links<D> {
    Links(if p.left == child then parent else p.left, if p.left == child then p.right else parent, p.parent)
  }

  lemma SwappedIs<D>(was: map<Node<D>, Links<D>>, parent: Node<D>, child: Node<D>, n: Node<D>)
    requires parent in was && child in was && n in was && Around(was[parent], was[child], parent, child)
    ensures n == parent ==> Swapped(was, parent, child, n) == Links(was[child].left, was[child].right, child)
    ensures n == child ==> Swapped(was, parent, child, n) == Exchanged(was[parent], parent, child)
    ensures n != parent && n != child ==>
      Swapped(was, parent, child, n) ==
        if n == was[parent].parent then Redirected(Rebased(was, parent, child, n), parent, child) else Rebased(was, parent, child, n)
  {
  }

  lemma AroundMeans<D>(was: map<Node<D>, Links<D>>, parent: Node<D>, child: Node<D>)
    requires parent in was && child in was && Around(was[parent], was[child], parent, child) && HangsFrom(was, was[parent].parent, parent)
    requires Known(was, OtherChild(was[parent], child)) && Known(was, was[child].left) && Known(was, was[child].right)
    ensures
      var p, c := was[parent], was[child];
      var s := OtherChild(p, child);
      && parent != child && (p.left == child || p.right == child) && p.left != parent && p.left != p.right
      && s !in {parent, child} && c.left !in {parent, child} && c.right !in {parent, child} && p.parent !in {parent, child}
      && (s != null ==> s != c.left && s != c.right) && (p.parent != null ==> p.parent in was)
  {
  }

  lemma ApartInTree<D>(ns: seq<Node<D>>, was: map<Node<D>, Links<D>>, p: nat, c: nat)
    requires Distinct(ns) && TreeWas(ns, was) && p < c < |ns| && p == (c - 1) / 2
    ensures ns[p] in was && ns[c] in was && Around(was[ns[p]], was[ns[c]], ns[p], ns[c]) && HangsFrom(was, was[ns[p]].parent, ns[p])
    ensures (was[ns[p]].parent == null <==> p == 0)
    ensures Known(was, OtherChild(was[ns[p]], ns[c])) && Known(was, was[ns[c]].left) && Known(was, was[ns[c]].right)
  {
    hide Around, HangsFrom, Known, Distinct, TreeWas, TreeLinks;
    LinksThere(ns, was, p);
    LinksThere(ns, was, c);
    AroundInTree(ns, was, p, c);
  }

  lemma LinksThere<D>(ns: seq<Node<D>>, was: map<Node<D>, Links<D>>, i: nat)
    requires TreeWas(ns, was) && i < |ns|
    ensures ns[i] in was && was[ns[i]] == TreeLinks(ns, i) && HangsFrom(was, was[ns[i]].parent, ns[i])
    ensures Known(was, was[ns[i]].left) && Known(was, was[ns[i]].right) && (was[ns[i]].parent == null <==> i == 0)
  {
    assert TreeAt(ns, was, i) && (i > 0 ==> TreeAt(ns, was, (i - 1) / 2));
    assert Known(was, At(ns, 2 * i + 1)) && Known(was, At(ns, 2 * i + 2));
  }

  lemma AroundInTree<D>(ns: seq<Node<D>>, was: map<Node<D>, Links<D>>, p: nat, c: nat)
    requires Distinct(ns) && p < c < |ns| && p == (c - 1) / 2 && ns[p] in was && ns[c] in was
    requires was[ns[p]] == TreeLinks(ns, p) && was[ns[c]] == TreeLinks(ns, c)
    ensures Around(was[ns[p]], was[ns[c]], ns[p], ns[c])
  {
  }

  /** A place in the tree is told by the node that is there. */
  lemma SamePlace<D>(ns: seq<Node<D>>, i: nat, k: int)
    requires Distinct(ns) && i < |ns|
    ensures At(ns, k) == ns[i] <==> k == i
  {
  }

  lemma AtTraded<D>(ns: seq<Node<D>>, p: nat, c: nat, k: int)
    requires p < c < |ns|
    ensures At(ns[p := ns[c]][c := ns[p]], k) == if k == p then ns[c] else if k == c then ns[p] else At(ns, k)
  {
  }

  /** Trading places in the level order is what the pointers do: for the child, ... */
  lemma SwappedAbove<D>(ns: seq<Node<D>>, was: map<Node<D>, Links<D>>, p: nat, c: nat)
    requires Distinct(ns) && TreeWas(ns, was) && p < c < |ns| && p == (c - 1) / 2
    ensures ns[p] in was && ns[c] in was && Swapped(was, ns[p], ns[c], ns[c]) == TreeLinks(ns[p := ns[c]][c := ns[p]], p)
  {
    hide Distinct;
    assert TreeAt(ns, was, p) && TreeAt(ns, was, c);
    SamePlace(ns, c, p);
    SamePlace(ns, c, 2 * p + 1);
    AtTraded(ns, p, c, 2 * p + 1);
    AtTraded(ns, p, c, 2 * p + 2);
    AtTraded(ns, p, c, (p - 1) / 2);
  }

  /** ... for its parent, ... */
  lemma SwappedBelow<D>(ns: seq<Node<D>>, was: map<Node<D>, Links<D>>, p: nat, c: nat)
    requires Distinct(ns) && TreeWas(ns, was) && p < c < |ns| && p == (c - 1) / 2
    ensures ns[p] in was && ns[c] in was && Swapped(was, ns[p], ns[c], ns[p]) == TreeLinks(ns[p := ns[c]][c := ns[p]], c)
  {
    hide Distinct;
    assert TreeAt(ns, was, p) && TreeAt(ns, was, c);
    AtTraded(ns, p, c, 2 * c + 1);
    AtTraded(ns, p, c, 2 * c + 2);
    AtTraded(ns, p, c, p);
  }

  /** ... and for any other node its child pointers ... */
  lemma SwappedChildren<D>(ns: seq<Node<D>>, was: map<Node<D>, Links<D>>, p: nat, c: nat, i: nat)
    requires Distinct(ns) && TreeWas(ns, was) && p < c < |ns| && p == (c - 1) / 2 && i < |ns| && i != p && i != c
    ensures ns[p] in was && ns[c] in was && ns[i] in was
    ensures
      var links, after := Swapped(was, ns[p], ns[c], ns[i]), TreeLinks(ns[p := ns[c]][c := ns[p]], i);
      links.left == after.left && links.right == after.right
  {
    hide Distinct;
    assert TreeAt(ns, was, p) && TreeAt(ns, was, c) && TreeAt(ns, was, i);
    SamePlace(ns, i, p);
    SamePlace(ns, i, c);
    if p > 0 {
      SamePlace(ns, i, (p - 1) / 2);
      SamePlace(ns, p, 2 * i + 1);
    }
    AtTraded(ns, p, c, 2 * i + 1);
    AtTraded(ns, p, c, 2 * i + 2);
  }

  /** ... and its parent pointer. */
  lemma SwappedParent<D>(ns: seq<Node<D>>, was: map<Node<D>, Links<D>>, p: nat, c: nat, i: nat)
    requires Distinct(ns) && TreeWas(ns, was) && p < c < |ns| && p == (c - 1) / 2 && i < |ns| && i != p && i != c
    ensures ns[p] in was && ns[c] in was && ns[i] in was
    ensures Swapped(was, ns[p], ns[c], ns[i]).parent == TreeLinks(ns[p := ns[c]][c := ns[p]], i).parent
  {
    hide Distinct;
    assert TreeAt(ns, was, p) && TreeAt(ns, was, c) && TreeAt(ns, was, i);
    SamePlace(ns, i, p);
    SamePlace(ns, i, c);
    SamePlace(ns, c, 2 * p + 1);
    SamePlace(ns, i, 2 * p + 1);
    SamePlace(ns, i, 2 * p + 2);
    SamePlace(ns, i, 2 * c + 1);
    SamePlace(ns, i, 2 * c + 2);
    AtTraded(ns, p, c, (i - 1) / 2);
  }

  lemma SwappedLinks<D>(ns: seq<Node<D>>, was: map<Node<D>, Links<D>>, p: nat, c: nat, i: nat)
    requires Distinct(ns) && TreeWas(ns, was) && p < c < |ns| && p == (c - 1) / 2 && i < |ns|
    ensures
      var after := ns[p := ns[c]][c := ns[p]];
      ns[p] in was && ns[c] in was && after[i] in was && Swapped(was, ns[p], ns[c], after[i]) == TreeLinks(after, i)
  {
    hide Swapped, TreeLinks, Distinct, TreeWas;
    SwappedAbove(ns, was, p, c);
    SwappedBelow(ns, was, p, c);
    if i != p && i != c {
      SwappedChildren(ns, was, p, c, i);
      SwappedParent(ns, was, p, c, i);
    }
  }

  lemma TradedLinked<D>(ns: seq<Node<D>>, was: map<Node<D>, Links<D>>, p: nat, c: nat, after: seq<Node<D>>)
    requires Distinct(ns) && TreeWas(ns, was) && p < c < |ns| && p == (c - 1) / 2 && after == ns[p := ns[c]][c := ns[p]]
    requires ns[p] in was && ns[c] in was && forall n :: n in was ==> LinksOf(n) == Swapped(was, ns[p], ns[c], n)
    ensures AllLinked(after)
  {
    hide Swapped, TreeLinks, Distinct, TreeWas;
    forall i | 0 <= i < |after| ensures LinkedAt(after, i) {
      SwappedLinks(ns, was, p, c, i);
    }
  }

  /** `child` is not yet in the tree; the nodes around `node` are distinct. */
  ghost predicate ApartFrom<D>(w: Links<D>, node: Node<D>, child: Node<D>) {
    var l, r, g := w.left, w.right, w.parent;
    node != child && l != node && r != node && g != node && l != child && r != child && g != child
    && (l != null ==> l != r && l != g) && (r != null ==> r != g)
  }

  /** The pointers of `n` once another node has taken over those of `node`. */
  ghost function Taken<D>(was: map<Node<D>, Links<D>>, node: Node<D>, child: Node<D>, n: Node<D>): Links<D>
    requires node in was && n in was
  {
    var w, x := was[node], was[n];
    Links(if n == w.parent && x.left == node then child else x.left,
          if n == w.parent && x.left != node then child else x.right,
          if n == w.left || n == w.right then child else x.parent)
  }

  lemma ApartFromNewcomer<D>(ns: seq<Node<D>>, was: map<Node<D>, Links<D>>, r: nat, child: Node<D>)
    requires Distinct(ns) && TreeWas(ns, was) && r < |ns| && child !in ns
    ensures ns[r] in was && ApartFrom(was[ns[r]], ns[r], child) && HangsFrom(was, was[ns[r]].parent, ns[r])
    ensures Known(was, was[ns[r]].left) && Known(was, was[ns[r]].right)
    ensures (was[ns[r]].parent == null <==> r == 0)
  {
    assert TreeAt(ns, was, r) && (r > 0 ==> TreeAt(ns, was, (r - 1) / 2));
    assert Known(was, At(ns, 2 * r + 1)) && Known(was, At(ns, 2 * r + 2));
  }

  lemma TakenLinks<D>(ns: seq<Node<D>>, was: map<Node<D>, Links<D>>, r: nat, child: Node<D>, i: nat)
    requires Distinct(ns) && TreeWas(ns, was) && r < |ns| && child !in ns && i < |ns|
    ensures ns[r] in was && ns[i] in was
    ensures (if i == r then was[ns[r]] else Taken(was, ns[r], child, ns[i])) == TreeLinks(ns[r := child], i)
  {
    ApartFromNewcomer(ns, was, r, child);
    assert TreeAt(ns, was, r) && TreeAt(ns, was, i);
  }

  lemma TakenLinked<D>(ns: seq<Node<D>>, was: map<Node<D>, Links<D>>, r: nat, child: Node<D>, after: seq<Node<D>>)
    requires Distinct(ns) && TreeWas(ns, was) && r < |ns| && child !in ns && after == ns[r := child] && ns[r] in was
    requires LinksOf(child) == was[ns[r]] && forall n :: n in was && n != ns[r] ==> LinksOf(n) == Taken(was, ns[r], child, n)
    ensures AllLinked(after) && Distinct(after)
  {
    hide Taken, TreeLinks, TreeWas;
    forall i | 0 <= i < |after| ensures LinkedAt(after, i) {
      TakenLinks(ns, was, r, child, i);
    }
  }

  // ----- the slot of a number -----

  ghost function SlotOf<D>(ns: seq<Node<D>>, number: nat): Slot<D>
    requires 1 <= number && number / 2 <= |ns|
  {
    if number == 1 then Root
    else if number % 2 == 1 then RightOf(ns[number / 2 - 1]) else LeftOf(ns[number / 2 - 1])
  }

  ghost function AboveOf<D>(ns: seq<Node<D>>, number: nat): Node?<D> {
    if number <= 1 then null else At(ns, number / 2 - 1)
  }

  ghost function SlotOwner<D>(slot: Slot<D>): set<Node<D>> {
    if slot.Root? then {} else {slot.node}
  }

  /** The pointers of `n` once `x` is stored in a slot. */
  ghost function Held<D>(was: map<Node<D>, Links<D>>, slot: Slot<D>, x: Node?<D>, n: Node<D>): Links<D>
    requires n in was
  {
    var w := was[n];
    if slot.LeftOf? && slot.node == n then Links(x, w.right, w.parent)
    else if slot.RightOf? && slot.node == n then Links(w.left, x, w.parent)
    else w
  }

  /** A node hung in the first free slot. */
  lemma HungLinks<D>(ns: seq<Node<D>>, was: map<Node<D>, Links<D>>, x: Node<D>, i: nat)
    requires Distinct(ns) && TreeWas(ns, was) && x !in ns && i <= |ns|
    ensures i < |ns| ==> ns[i] in was && TreeLinks(ns + [x], i) == Held(was, SlotOf(ns, |ns| + 1), x, ns[i])
    ensures i == |ns| ==> TreeLinks(ns + [x], i) == Links(null, null, AboveOf(ns, |ns| + 1))
  {
    assert i < |ns| ==> TreeAt(ns, was, i);
  }

  /** The last node cut off. */
  lemma CutLinks<D>(ns: seq<Node<D>>, was: map<Node<D>, Links<D>>, i: nat)
    requires Distinct(ns) && TreeWas(ns, was) && i < |ns| - 1
    ensures ns[i] in was && TreeLinks(ns[..|ns| - 1], i) == Held(was, SlotOf(ns, |ns|), null, ns[i])
  {
    assert TreeAt(ns, was, i);
  }

  lemma HungLinked<D>(ns: seq<Node<D>>, was: map<Node<D>, Links<D>>, x: Node<D>)
    requires Distinct(ns) && TreeWas(ns, was) && x !in ns && LinksOf(x) == Links(null, null, AboveOf(ns, |ns| + 1))
    requires forall n :: n in was ==> LinksOf(n) == Held(was, SlotOf(ns, |ns| + 1), x, n)
    ensures AllLinked(ns + [x])
  {
    hide SlotOf, Held, TreeLinks, Distinct, TreeWas, AboveOf;
    forall i | 0 <= i <= |ns| ensures LinkedAt(ns + [x], i) {
      HungLinks(ns, was, x, i);
    }
  }

  lemma CutLinked<D>(ns: seq<Node<D>>, was: map<Node<D>, Links<D>>, shorter: seq<Node<D>>)
    requires ns != [] && Distinct(ns) && TreeWas(ns, was) && shorter == ns[..|ns| - 1]
    requires forall n :: n in was ==> LinksOf(n) == Held(was, SlotOf(ns, |ns|), null, n)
    ensures AllLinked(shorter)
  {
    hide SlotOf, Held, TreeLinks, Distinct, TreeWas;
    forall i | 0 <= i < |shorter| ensures LinkedAt(shorter, i) {
      CutLinks(ns, was, i);
    }
  }

  lemma OneMore<D>(ns: seq<Node<D>>, x: Node<D>)
    requires Distinct(ns) && x !in ns
    ensures Distinct(ns + [x])
  {
  }

  lemma LastApart<D>(ns: seq<Node<D>>)
    requires ns != [] && Distinct(ns)
    ensures var n := |ns| - 1; Distinct(ns[..n]) && ns[n] !in ns[..n] && ns[..n] + [ns[n]] == ns
  {
  }

  class Heap<D(!new)> {
    /** The comparison that every call of the heap is given. */
    const less: (D, D) -> bool
    var min: Node?<D>
    var nelts: nat
    /** The nodes in level order. */
    ghost var nodes: seq<Node<D>>

    /** A complete binary tree: pointers agree with the level order everywhere. */
    ghost predicate Linked()
      reads this, Elements()`left, Elements()`right, Elements()`parent
    {
      nelts == |nodes| && min == At(nodes, 0) && Distinct(nodes) && AllLinked(nodes)
    }

    ghost predicate Valid()
      reads this, Elements()`left, Elements()`right, Elements()`parent, Elements()`data
    {
      StrictWeak(less) && Linked() && AllOrdered(less, Datas(nodes))
    }

    ghost function Elements(): set<Node<D>>
      reads this
    {
      Set(nodes)
    }

    constructor (less: (D, D) -> bool)
      requires StrictWeak(less)
      ensures Valid() && nodes == [] && this.less == less
    {
      this.less := less;
      min, nelts, nodes := null, 0, [];
    }

    lemma Counted()
      requires Valid()
      ensures nelts == |nodes|
    {
    }

    lemma IsTree()
      requires Linked()
      ensures TreeWas(nodes, Was(nodes)) && Distinct(nodes)
    {
      forall i | 0 <= i < |nodes| ensures TreeAt(nodes, Was(nodes), i) {
        assert LinkedAt(nodes, i);
      }
    }

    /** heap_min: a node no other is less than. */
    method Min() returns (n: Node?<D>)
      requires Valid()
      ensures n == null <==> Elements() == {}
      ensures n != null ==> n in Elements() && forall m :: m in Elements() ==> !less(m.data, n.data)
      ensures n != null ==> n == nodes[0]
    {
      hide StrictWeak, AllOrdered;
      n := min;
      if n == null {
        assert nodes == [];
      } else {
        assert nodes[0] in Elements();
        forall m | m in Elements() ensures !less(m.data, n.data) {
          var i :| 0 <= i < |nodes| && nodes[i] == m;
          RootIsLeast(less, Datas(nodes), i);
        }
      }
    }

    /** The two nodes exchange their pointers, and each points to the other. */
    method Exchange(parent: Node<D>, child: Node<D>) returns (sibling: Node?<D>)
      requires parent != child && (parent.left == child || parent.right == child) && parent.left != parent && parent.left != parent.right
      modifies parent`left, parent`right, parent`parent, child`left, child`right, child`parent
      ensures LinksOf(parent) == Links(old(child.left), old(child.right), child) && sibling == old(OtherChild(LinksOf(parent), child))
      ensures LinksOf(child) == Exchanged(old(LinksOf(parent)), parent, child)
    {
      var tLeft, tRight, tParent := parent.left, parent.right, parent.parent;
      parent.left, parent.right, parent.parent := child.left, child.right, child.parent;
      child.left, child.right, child.parent := tLeft, tRight, tParent;

      parent.parent := child;
      if child.left == child {
        child.left := parent;
        sibling := child.right;
      } else {
        child.right := parent;
        sibling := child.left;
      }
    }

    /** The nodes below the two get new parents. */
    method Rebase(parent: Node<D>, child: Node<D>, sibling: Node?<D>, ghost was: map<Node<D>, Links<D>>)
      requires parent in was && child in was && (forall n :: n in was && n != parent && n != child ==> LinksOf(n) == was[n])
      requires sibling == OtherChild(was[parent], child) && parent.left == was[child].left && parent.right == was[child].right
      requires Known(was, sibling) && Known(was, parent.left) && Known(was, parent.right)
      requires sibling !in {parent, child} && parent.left !in {parent, child} && parent.right !in {parent, child}
      requires sibling != null ==> sibling != parent.left && sibling != parent.right
      modifies was.Keys`parent
      ensures LinksOf(parent) == old(LinksOf(parent)) && LinksOf(child) == old(LinksOf(child))
      ensures forall n :: n in was && n != parent && n != child ==> LinksOf(n) == Rebased(was, parent, child, n)
    {
      if sibling != null {
        sibling.parent := child;
      }
      if parent.left != null {
        parent.left.parent := parent;
      }
      if parent.right != null {
        parent.right.parent := parent;
      }
    }

    /** The link that led to `parent` leads to `child`. */
    method Redirect(parent: Node<D>, child: Node<D>)
      requires child.parent !in {parent, child}
      modifies this`min, (if child.parent == null then {} else {child.parent})`left, (if child.parent == null then {} else {child.parent})`right
      ensures min == if child.parent == null then child else old(min)
      ensures LinksOf(parent) == old(LinksOf(parent)) && LinksOf(child) == old(LinksOf(child))
      ensures child.parent != null ==> LinksOf(child.parent) == Redirected(old(LinksOf(child.parent)), parent, child)
    {
      if child.parent == null {
        min := child;
      } else if child.parent.left == parent {
        child.parent.left := child;
      } else {
        child.parent.right := child;
      }
    }

    /** heap_node_swap as it treats pointers: `child` takes its parent's place. */
    method SwapPointers(parent: Node<D>, child: Node<D>, ghost was: map<Node<D>, Links<D>>)
      requires was == Was(nodes) && parent in was && child in was
      requires Around(was[parent], was[child], parent, child) && HangsFrom(was, was[parent].parent, parent)
      requires Known(was, OtherChild(was[parent], child)) && Known(was, was[child].left) && Known(was, was[child].right)
      modifies this`min, Elements()`left, Elements()`right, Elements()`parent
      ensures min == if was[parent].parent == null then child else old(min)
      ensures forall n :: n in was ==> LinksOf(n) == Swapped(was, parent, child, n)
    {
      hide Around, Swapped, HangsFrom, OtherChild, Rebased, Redirected;
      assert LinksOf(parent) == was[parent] && LinksOf(child) == was[child];
      AroundMeans(was, parent, child);
      var sibling := Exchange(parent, child);
      Rebase(parent, child, sibling, was);
      label L:
      Redirect(parent, child);
      forall n | n in was ensures LinksOf(n) == Swapped(was, parent, child, n) {
        SwappedIs(was, parent, child, n);
        assert n != child.parent ==> LinksOf(n) == old@L(LinksOf(n));
      }
    }

    /** Moves `child` above its parent; every other node keeps its place. */
    method NodeSwap(parent: Node<D>, child: Node<D>, ghost p: nat, ghost c: nat)
      requires Linked() && p < c < |nodes| && p == (c - 1) / 2 && nodes[p] == parent && nodes[c] == child
      modifies this`min, this`nodes, Elements()`left, Elements()`right, Elements()`parent
      ensures Linked() && nodes == old(nodes)[p := child][c := parent] && Elements() == old(Elements())
    {
      hide Swapped, Around, TreeLinks, HangsFrom, Datas, TreeWas, Distinct, AllLinked;
      ghost var ns, was := nodes, Was(nodes);
      IsTree();
      ApartInTree(ns, was, p, c);
      SwapPointers(parent, child, was);
      nodes := nodes[p := child][c := parent];
      SameElements(ns, p, c, nodes);
      TradedLinked(ns, was, p, c, nodes);
    }

    /** The loop that moves a node up while it is less than its parent. */
    method SiftUp(node: Node<D>, ghost c0: nat)
      requires StrictWeak(less) && Linked() && c0 < |nodes| && nodes[c0] == node && OrderedButAbove(less, Datas(nodes), c0)
      modifies this`min, this`nodes, Elements()`left, Elements()`right, Elements()`parent
      ensures Valid() && Elements() == old(Elements())
    {
      hide StrictWeak, Datas, OrderedButAbove, Distinct;
      ghost var c: nat := c0;
      while node.parent != null && less(node.data, node.parent.data)
        invariant Linked() && c < |nodes| && nodes[c] == node && OrderedButAbove(less, Datas(nodes), c)
        invariant Elements() == old(Elements())
        decreases c
      {
        assert LinkedAt(nodes, c);
        ghost var ns, ds, p := nodes, Datas(nodes), (c - 1) / 2;
        NodeSwap(node.parent, node, p, c);
        DatasTraded(ns, p, c, nodes);
        MovedUp(less, ds, p, c, Datas(nodes));
        c := p;
      }
      assert LinkedAt(nodes, c);
      SiftedUp(less, Datas(nodes), c);
    }

    /** The smallest of a node and its children, the node itself if no child is less. */
    method SmallestOf(child: Node<D>, ghost c: nat) returns (smallest: Node<D>, ghost s: nat)
      requires StrictWeak(less) && Linked() && c < |nodes| && nodes[c] == child
      ensures s < |nodes| && smallest == nodes[s]
      ensures if smallest == child then s == c && NoChildLess(less, Datas(nodes), c) else IsSmallest(less, Datas(nodes), c, s)
    {
      hide StrictWeak, Datas;
      assert LinkedAt(nodes, c);
      smallest, s := child, c;
      if child.left != null && less(child.left.data, smallest.data) {
        smallest, s := child.left, 2 * c + 1;
      }
      if child.right != null && less(child.right.data, smallest.data) {
        smallest, s := child.right, 2 * c + 2;
      }
      if smallest != child {
        Smallest(less, Datas(nodes), c, s);
      }
    }

    /** The loop that moves a node down while a child is less than it. */
    method SiftDown(child: Node<D>, ghost c0: nat) returns (ghost c: nat)
      requires StrictWeak(less) && Linked() && c0 < |nodes| && nodes[c0] == child && OrderedButAt(less, Datas(nodes), c0)
      modifies this`min, this`nodes, Elements()`left, Elements()`right, Elements()`parent
      ensures Linked() && c < |nodes| && nodes[c] == child && OrderedButAbove(less, Datas(nodes), c)
      ensures Elements() == old(Elements())
    {
      hide StrictWeak, Datas, OrderedButAbove, OrderedButAt, Distinct, NoChildLess;
      c := c0;
      while true
        invariant Linked() && c < |nodes| && nodes[c] == child && OrderedButAt(less, Datas(nodes), c)
        invariant |nodes| == old(|nodes|) && Elements() == old(Elements())
        decreases |nodes| - c
      {
        ghost var s;
        var smallest;
        smallest, s := SmallestOf(child, c);
        if smallest == child {
          Settled(less, Datas(nodes), c);
          return;
        }
        ghost var ns, ds := nodes, Datas(nodes);
        NodeSwap(child, smallest, c, s);
        DatasTraded(ns, c, s, nodes);
        MovedDown(less, ds, c, s, Datas(nodes));
        c := s;
      }
    }

    // ----- insertion and removal -----

    method Load(slot: Slot<D>) returns (n: Node?<D>)
      ensures n == match slot { case Root => min case LeftOf(p) => p.left case RightOf(p) => p.right }
    {
      match slot {
        case Root => n := min;
        case LeftOf(p) => n := p.left;
        case RightOf(p) => n := p.right;
      }
    }

    method Store(slot: Slot<D>, n: Node?<D>, ghost was: map<Node<D>, Links<D>>)
      requires forall m :: m in was ==> LinksOf(m) == was[m]
      modifies this`min, SlotOwner(slot)`left, SlotOwner(slot)`right
      ensures min == if slot.Root? then n else old(min)
      ensures forall m :: m in was ==> LinksOf(m) == Held(was, slot, n, m)
    {
      match slot {
        case Root => min := n;
        case LeftOf(p) => p.left := n;
        case RightOf(p) => p.right := n;
      }
    }

    /** What a slot holds is the node of its number. */
    lemma SlotHolds(number: nat)
      requires Linked() && 1 <= number <= |nodes|
      ensures match SlotOf(nodes, number)
              case Root => min == nodes[number - 1]
              case LeftOf(p) => p.left == nodes[number - 1]
              case RightOf(p) => p.right == nodes[number - 1]
    {
      assert number > 1 ==> LinkedAt(nodes, number / 2 - 1);
    }

    /** One turn of the walk down. */
    lemma SlotBelow(c: nat, bit: nat)
      requires 1 <= c <= |nodes| && bit < 2
      ensures SlotOf(nodes, 2 * c + bit) == (if bit == 1 then RightOf(nodes[c - 1]) else LeftOf(nodes[c - 1]))
      ensures AboveOf(nodes, 2 * c + bit) == nodes[c - 1]
    {
    }

    /** Walks the bit path to the slot of the node numbered `number`. */
    method Walk(number: nat) returns (slot: Slot<D>, above: Node?<D>)
      requires Linked() && 1 <= number <= |nodes| + 1
      ensures slot == SlotOf(nodes, number) && above == AboveOf(nodes, number)
    {
      hide SlotOf, AboveOf, AllLinked, Distinct;
      var path, k := PathTo(number);
      slot, above := Root, null;
      ghost var c := 1;
      FirstSlot(nodes);
      while k > 0
        invariant c >= 1 && Descend(c, path, k) == number && c <= number
        invariant slot == SlotOf(nodes, c) && above == AboveOf(nodes, c)
      {
        DescendGrows(c, path, k);
        DescendGrows(2 * c + path % 2, path / 2, k - 1);
        SlotHolds(c);
        SlotBelow(c, path % 2);
        var x := Load(slot);
        above := x;
        slot := if path % 2 == 1 then RightOf(x) else LeftOf(x);
        c := 2 * c + path % 2;
        path, k := path / 2, k - 1;
      }
    }

    /** Hangs `newnode` in the first free slot of the bottom row. */
    method Append(newnode: Node<D>)
      requires Linked() && newnode !in Elements()
      modifies this`min, this`nelts, this`nodes, Elements()`left, Elements()`right
      modifies newnode`left, newnode`right, newnode`parent
      ensures Linked() && nodes == old(nodes) + [newnode]
    {
      hide SlotOf, AboveOf, AllLinked, Distinct, At;
      newnode.left, newnode.right, newnode.parent := null, null, null;
      var slot, above := Walk(1 + nelts);
      Hang(newnode, slot, above);
    }

    method Hang(newnode: Node<D>, slot: Slot<D>, above: Node?<D>)
      requires Linked() && newnode !in Elements() && newnode.left == null && newnode.right == null
      requires slot == SlotOf(nodes, |nodes| + 1) && above == AboveOf(nodes, |nodes| + 1)
      modifies this`min, this`nelts, this`nodes, Elements()`left, Elements()`right, newnode`parent
      ensures Linked() && nodes == old(nodes) + [newnode]
    {
      hide SlotOf, AboveOf, Held, TreeWas, AllLinked, Distinct;
      ghost var ns, was := nodes, Was(nodes);
      IsTree();
      OwnerIn(ns, |ns| + 1);
      newnode.parent := above;
      Store(slot, newnode, was);
      RootSlotOnly(ns, |ns| + 1);
      assert newnode !in was;
      HungLinked(ns, was, newnode);
      OneMore(ns, newnode);
      nelts := nelts + 1;
      nodes := nodes + [newnode];
    }

    method Insert(newnode: Node<D>)
      requires Valid() && newnode !in Elements() && nelts < UINT_MAX
      modifies this`min, this`nelts, this`nodes, Elements()`left, Elements()`right, Elements()`parent
      modifies newnode`left, newnode`right, newnode`parent
      ensures Valid() && Elements() == old(Elements()) + {newnode} && nelts == old(nelts) + 1
    {
      hide StrictWeak, Datas, AllOrdered, OrderedButAbove, AllLinked, Distinct;
      ghost var ns, ds := nodes, Datas(nodes);
      Append(newnode);
      LongerOrdered(less, ds, newnode.data);
      assert Datas(nodes) == ds + [newnode.data];
      assert Elements() == old(Elements()) + {newnode};
      SiftUp(newnode, |ns|);
    }

    /** Takes the last node out of the tree. */
    method Unlink() returns (child: Node<D>)
      requires Linked() && nelts > 0
      modifies this`min, this`nelts, this`nodes, Elements()`left, Elements()`right
      ensures Linked() && nodes + [child] == old(nodes) && child !in nodes
    {
      hide SlotOf, AboveOf, Held, TreeWas, Distinct, AllLinked;
      ghost var ns, was := nodes, Was(nodes);
      IsTree();
      var slot, _ := Walk(nelts);
      SlotHolds(nelts);
      var last := Load(slot);
      nelts := nelts - 1;
      child := last;
      OwnerIn(ns, |ns|);
      Store(slot, null, was);
      nodes := nodes[..nelts];
      LastApart(ns);
      CutLinked(ns, was, nodes);
      RootSlotOnly(ns, |ns|);
    }

    /** `child` takes over the pointers of `node`, and the nodes around it follow. */
    method TakeOver(node: Node<D>, child: Node<D>, ghost was: map<Node<D>, Links<D>>)
      requires was == Was(nodes) && node in was && child !in was
      requires ApartFrom(was[node], node, child) && HangsFrom(was, was[node].parent, node)
      requires Known(was, was[node].left) && Known(was, was[node].right)
      modifies this`min, Elements()`left, Elements()`right, Elements()`parent, child`left, child`right, child`parent
      ensures LinksOf(child) == was[node]
      ensures forall n :: n in was && n != node ==> LinksOf(n) == Taken(was, node, child, n)
      ensures min == if was[node].parent == null then child else old(min)
    {
      assert LinksOf(node) == was[node];
      child.left := node.left;
      child.right := node.right;
      child.parent := node.parent;
      if child.left != null {
        child.left.parent := child;
      }
      if child.right != null {
        child.right.parent := child;
      }
      if node.parent == null {
        min := child;
      } else if node.parent.left == node {
        node.parent.left := child;
      } else {
        node.parent.right := child;
      }
    }

    /** Puts `child` where `node` is. */
    method Replace(node: Node<D>, child: Node<D>, ghost r: nat)
      requires Linked() && r < |nodes| && nodes[r] == node && child !in nodes
      modifies this`min, this`nodes, Elements()`left, Elements()`right, Elements()`parent
      modifies child`left, child`right, child`parent
      ensures Linked() && nodes == old(nodes)[r := child]
    {
      hide Taken, ApartFrom, HangsFrom, TreeWas, AllLinked, Distinct;
      ghost var ns, was := nodes, Was(nodes);
      IsTree();
      ApartFromNewcomer(ns, was, r, child);
      TakeOver(node, child, was);
      nodes := nodes[r := child];
      TakenLinked(ns, was, r, child, nodes);
    }

    /** heap_remove */
    method Remove(node: Node<D>)
      requires Valid() && (nelts > 0 ==> node in Elements())
      modifies this`min, this`nelts, this`nodes, Elements()`left, Elements()`right, Elements()`parent
      ensures Valid() && Elements() == old(Elements()) - {node}
      ensures nelts == if old(nelts) == 0 then 0 else old(nelts) - 1
    {
      hide StrictWeak, Datas, AllOrdered, OrderedButAbove, OrderedButAt, AllLinked, Distinct;
      if nelts == 0 {
        return;
      }
      ghost var ns, ds := nodes, Datas(nodes);
      var child := Unlink();
      ghost var shorter := nodes;
      ShorterElements(ns, shorter, child);
      ShorterOrdered(less, ds, Datas(shorter));
      if child == node {
        // Unlinking the root has already cleared the root pointer.
        assert child != min;
        return;
      }
      assert node in shorter;
      ghost var r :| 0 <= r < |shorter| && shorter[r] == node;
      ReplacedElements(shorter, r, child);
      ReplacedOrdered(less, Datas(shorter), r, child.data);
      Replace(node, child, r);
      assert Datas(nodes) == Datas(shorter)[r := child.data];
      ghost var c := SiftDown(child, r);
      SiftUp(child, c);
    }

    /** heap_dequeue */
    method Dequeue()
      requires Valid()
      modifies this`min, this`nelts, this`nodes, Elements()`left, Elements()`right, Elements()`parent
      ensures Valid()
      ensures old(nodes) != [] ==> Elements() == old(Elements()) - {old(nodes)[0]}
    {
      if min != null {
        assert nodes[0] in Elements();
        Remove(min);
      }
    }
  }

  lemma FirstSlot<D>(ns: seq<Node<D>>)
    ensures SlotOf(ns, 1) == Root && AboveOf(ns, 1) == null
  {
  }

  lemma OwnerIn<D>(ns: seq<Node<D>>, number: nat)
    requires 1 <= number <= |ns| + 1
    ensures SlotOwner(SlotOf(ns, number)) <= Set(ns)
  {
  }

  lemma RootSlotOnly<D>(ns: seq<Node<D>>, number: nat)
    requires 1 <= number <= |ns| + 1
    ensures SlotOf(ns, number).Root? <==> number == 1
  {
  }

  lemma SiftedUp<D(!new)>(less: (D, D) -> bool, ds: seq<D>, c: nat)
    requires c < |ds| && OrderedButAbove(less, ds, c) && (c > 0 ==> !less(ds[c], ds[(c - 1) / 2]))
    ensures AllOrdered(less, ds)
  {
  }
}
