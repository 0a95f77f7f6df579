/** Searches of a skip list by readers that take no lock: each load of a link is one step, and
    between two of them the writer may make any number of its stores. */
module SkipListReads {
  import opened SkipList

  ghost predicate Published(list: Links, n: Node)
    requires Good(list)
  {
    exists p :: 0 <= p < |list.order| && list.order[p] == n && list.heights[p] > 0
  }

  /** What a search looks for: the first key at or after one, or the end of the list. */
  datatype Target = At(key: Key) | End

  predicate Before(n: Node, target: Target) {
    target.End? || n.key < target.key
  }

  // ----- a reader -----

  /** Where a search is: at the head (null) or a node, on a level; or at its end, with the node
      it stopped at and the one after it. */
  datatype Reader = Looking(x: Node?, level: nat) | Stopped(x: Node?, next: Node?)

  /** The place of a node; the head is before all of them. */
  ghost predicate Stands(list: Links, x: Node?, p: int)
    requires Good(list)
  {
    -1 <= p < |list.order| && if p < 0 then x == null else x == list.order[p]
  }

  ghost function Next(list: Links, p: int, level: nat): Node?
    requires Good(list) && -1 <= p < |list.order|
  {
    NodeAt(list.order, NextAt(list.heights, p + 1, level))
  }

  /** A link of a list whose links are as they should be. */
  ghost predicate Leads(list: Links, x: Node?, level: nat, next: Node?)
    requires Good(list)
  {
    exists p :: Stands(list, x, p) && next == Next(list, p, level)
  }

  /** One load, and what the search does with it. */
  ghost predicate Load(list: Links, target: Target, r: Reader, r': Reader)
    requires Good(list)
  {
    r.Looking? && exists p :: Stands(list, r.x, p) && r' == Tried(target, r, Next(list, p, r.level))
  }

  function Tried(target: Target, r: Reader, next: Node?): Reader
    requires r.Looking?
  {
    if next != null && Before(next, target) then Looking(next, r.level)
    else if r.level > 0 then Looking(r.x, r.level - 1)
    else Stopped(r.x, next)
  }

  /** The reader stands at a node of the list that reaches its level and comes before the
      target, or at the head. */
  ghost predicate OnTrack(list: Links, target: Target, r: Reader)
    requires Good(list)
  {
    r.Looking? && r.level < MAX_HEIGHT && exists p :: Standing(list, target, r, p)
  }

  ghost predicate Standing(list: Links, target: Target, r: Reader, p: int)
    requires Good(list) && r.Looking?
  {
    Stands(list, r.x, p) && (p >= 0 ==> list.heights[p] > r.level && Before(list.order[p], target))
  }

  /** The answer that a search of this list alone would give: the last published node before
      the target, and the first that is not. */
  ghost predicate Answer(list: Links, target: Target, x: Node?, next: Node?)
    requires Good(list)
  {
    && (x != null ==> Published(list, x) && Before(x, target))
    && (next != null ==> Published(list, next) && !Before(next, target))
    && (forall n :: n in list.order && Published(list, n) && Before(n, target) ==> x != null && n.key <= x.key)
    && forall n :: n in list.order && Published(list, n) && !Before(n, target) ==> next != null && next.key <= n.key
  }

  // ----- stores leave a reader where it is -----

  /** Where a node that stood at `p` stands after a store; its tower is no lower. */
  ghost predicate Moved(a: Links, b: Links, p: int, q: int)
    requires Good(a) && Good(b)
  {
    && 0 <= p < |a.order| && 0 <= q < |b.order|
    && b.order[q] == a.order[p] && a.heights[p] <= b.heights[q]
  }

  lemma AppearsMoves(a: Links, b: Links, s: nat, x: Node, p: int) returns (q: int)
    requires Good(a) && Good(b) && Appears(a, b, s, x) && 0 <= p < |a.order|
    ensures Moved(a, b, p, q)
  {
    hide Increasing;
    q := if p < s then p else p + 1;
    InsertedAt(a.order, s, x, q);
    InsertedAt(a.heights, s, 0, q);
  }

  lemma StoreMoves(a: Links, b: Links, p: int) returns (q: int)
    requires Good(a) && Good(b) && Store(a, b) && 0 <= p < |a.order|
    ensures Moved(a, b, p, q)
  {
    hide Appears, Increasing;
    if s: nat, x :| x in b.order && Appears(a, b, s, x) {
      q := AppearsMoves(a, b, s, x, p);
    } else {
      var s: nat :| Rises(a, b, s);
      q := p;
    }
  }

  lemma StoreKeepsTrack(a: Links, b: Links, target: Target, r: Reader)
    requires Good(a) && Good(b) && Store(a, b) && OnTrack(a, target, r)
    ensures OnTrack(b, target, r)
  {
    var p := PlaceOf(a, target, r);
    if p < 0 {
      assert Standing(b, target, r, p);
    } else {
      var q := StoreMoves(a, b, p);
      assert Standing(b, target, r, q);
    }
  }

  /** A published node stays published. */
  lemma StoreKeepsPublished(a: Links, b: Links, n: Node)
    requires Good(a) && Good(b) && Store(a, b) && Published(a, n)
    ensures Published(b, n)
  {
    hide Store, Increasing;
    var p :| 0 <= p < |a.order| && a.order[p] == n && a.heights[p] > 0;
    var q := StoreMoves(a, b, p);
    assert b.order[q] == n;
  }

  // ----- a load -----

  lemma SamePlace(list: Links, x: Node?, p: int, q: int)
    requires Good(list) && Stands(list, x, p) && Stands(list, x, q)
    ensures p == q
  {
  }

  /** The one link that a load can follow. */
  lemma LoadIs(list: Links, target: Target, r: Reader, r': Reader, p: int)
    requires Good(list) && r.Looking? && Standing(list, target, r, p) && Load(list, target, r, r')
    ensures -1 <= p < |list.order| && r' == Tried(target, r, Next(list, p, r.level))
  {
    hide Next, Tried, Good;
    var q :| Stands(list, r.x, q) && r' == Tried(target, r, Next(list, q, r.level));
    SamePlace(list, r.x, p, q);
  }

  lemma PlaceOf(list: Links, target: Target, r: Reader) returns (p: int)
    requires Good(list) && OnTrack(list, target, r)
    ensures Standing(list, target, r, p)
  {
    p :| Standing(list, target, r, p);
  }

  lemma LoadKeepsTrack(list: Links, target: Target, r: Reader, r': Reader)
    requires Good(list) && OnTrack(list, target, r) && Load(list, target, r, r')
    ensures r'.Looking? ==> OnTrack(list, target, r')
    ensures r'.Stopped? ==> Answer(list, target, r'.x, r'.next)
  {
    hide Load, Answer, Increasing;
    var p := PlaceOf(list, target, r);
    LoadIs(list, target, r, r', p);
    var n := NextAt(list.heights, p + 1, r.level);
    if r'.Stopped? {
      StopsRight(list, target, r.x, p, n);
    } else {
      assert Standing(list, target, r', if r'.level < r.level then p else n);
    }
  }

  lemma StopsRight(list: Links, target: Target, x: Node?, p: int, n: nat)
    requires Good(list) && Stands(list, x, p) && n == NextAt(list.heights, p + 1, 0)
    requires p >= 0 ==> list.heights[p] > 0 && Before(list.order[p], target)
    requires n < |list.order| ==> !Before(list.order[n], target)
    ensures Answer(list, target, x, NodeAt(list.order, n))
  {
    hide Increasing;
    forall m | m in list.order && Published(list, m)
      ensures Before(m, target) ==> x != null && m.key <= x.key
      ensures !Before(m, target) ==> n < |list.order| && list.order[n].key <= m.key
    {
      var q :| 0 <= q < |list.order| && list.order[q] == m && list.heights[q] > 0;
      assert q <= p || n <= q;
      KeysRise(list, q, p);
      KeysRise(list, q, n);
    }
  }

  lemma KeysRise(list: Links, p: int, q: int)
    requires Good(list) && 0 <= p < |list.order|
    ensures 0 <= q < |list.order| ==> (p <= q <==> list.order[p].key <= list.order[q].key)
  {
  }

  // ----- whole searches -----

  datatype Event = Written(list: Links) | Loaded(reader: Reader)

  /** A run of stores and loads in any order, from a list and a reader to others. */
  ghost predicate Runs(list0: Links, r0: Reader, target: Target, events: seq<Event>, list: Links, r: Reader)
    requires Good(list0)
    decreases |events|
  {
    if events == [] then list == list0 && r == r0
    else
      match events[0]
      case Written(next) => Good(next) && Store(list0, next) && Runs(next, r0, target, events[1..], list, r)
      case Loaded(next) => Load(list0, target, r0, next) && Runs(list0, next, target, events[1..], list, r)
  }

  lemma {:induction false} RunKeepsTrack(list0: Links, r0: Reader, target: Target, events: seq<Event>, list: Links, r: Reader)
    requires Good(list0) && OnTrack(list0, target, r0) && Runs(list0, r0, target, events, list, r)
    requires r.Looking?
    ensures Good(list) && OnTrack(list, target, r)
    decreases |events|
  {
    hide OnTrack, Store, Load;
    if events != [] {
      match events[0]
      case Written(next) =>
        StoreKeepsTrack(list0, next, target, r0);
        RunKeepsTrack(next, r0, target, events[1..], list, r);
      case Loaded(next) =>
        LoadKeepsTrack(list0, target, r0, next);
        if next.Stopped? {
          StoppedStays(list0, next, target, events[1..], list, r);
        }
        RunKeepsTrack(list0, next, target, events[1..], list, r);
    }
  }

  /** A search that has stopped loads no more. */
  lemma {:induction false} StoppedStays(list0: Links, r0: Reader, target: Target, events: seq<Event>, list: Links, r: Reader)
    requires Good(list0) && r0.Stopped? && Runs(list0, r0, target, events, list, r)
    ensures r == r0
    decreases |events|
  {
    if events != [] && events[0].Written? {
      StoppedStays(events[0].list, r0, target, events[1..], list, r);
    }
  }

  lemma {:induction false} RunKeepsPublished(list0: Links, r0: Reader, target: Target, events: seq<Event>, list: Links, r: Reader, n: Node)
    requires Good(list0) && Runs(list0, r0, target, events, list, r) && Published(list0, n)
    ensures Good(list) && Published(list, n) && n in list.order
    decreases |events|
  {
    hide Store, Load;
    if events != [] {
      match events[0]
      case Written(next) =>
        StoreKeepsPublished(list0, next, n);
        RunKeepsPublished(next, r0, target, events[1..], list, r, n);
      case Loaded(next) =>
        RunKeepsPublished(list0, next, target, events[1..], list, r, n);
    }
  }

  /** From the head, on any level there is: maxHeight_ is read without a lock as well. */
  ghost predicate Starts(r: Reader) {
    r.Looking? && r.x == null && r.level < MAX_HEIGHT
  }

  lemma StartsOnTrack(list: Links, target: Target, r: Reader)
    requires Good(list) && Starts(r)
    ensures OnTrack(list, target, r)
  {
    assert Standing(list, target, r, -1);
  }

  /** Whatever the writer stores meanwhile, a search gives the answer that the list has at its
      last load; and a node that was published before the search is not missed. */
  lemma SearchIsExact(list0: Links, r0: Reader, target: Target, events: seq<Event>, list: Links, r: Reader, r': Reader)
    requires Good(list0) && Starts(r0) && Runs(list0, r0, target, events, list, r)
    requires Good(list) && r.Looking? && Load(list, target, r, r') && r'.Stopped?
    ensures Answer(list, target, r'.x, r'.next)
    ensures forall n :: n in list0.order && Published(list0, n) ==>
      if Before(n, target) then r'.x != null && n.key <= r'.x.key else r'.next != null && r'.next.key <= n.key
  {
    hide OnTrack, Load, Published;
    StartsOnTrack(list0, target, r0);
    RunKeepsTrack(list0, r0, target, events, list, r);
    LoadKeepsTrack(list, target, r, r');
    forall n | n in list0.order && Published(list0, n) ensures Published(list, n) && n in list.order {
      RunKeepsPublished(list0, r0, target, events, list, r, n);
    }
  }

  /** A key that was there before the search is found; a key that is found is there. */
  lemma KeyIsFound(list0: Links, r0: Reader, key: Key, events: seq<Event>, list: Links, r: Reader, r': Reader)
    requires Good(list0) && Starts(r0) && Runs(list0, r0, At(key), events, list, r)
    requires Good(list) && r.Looking? && Load(list, At(key), r, r') && r'.Stopped?
    ensures (exists n :: n in list0.order && Published(list0, n) && n.key == key) ==> r'.next != null && r'.next.key == key
    ensures r'.next != null && r'.next.key == key ==> Published(list, r'.next)
  {
    hide Load, Runs, Published;
    SearchIsExact(list0, r0, At(key), events, list, r, r');
  }

  /** An iterator's step to the next node, at any time, leads to the first published node behind
      the one it is on. */
  lemma NextIsExact(list: Links, x: Node, next: Node?)
    requires Good(list) && Published(list, x) && Leads(list, x, 0, next)
    ensures next != null ==> Published(list, next) && x.key < next.key
    ensures forall n :: n in list.order && Published(list, n) && x.key < n.key ==> next != null && next.key <= n.key
  {
    var p :| Stands(list, x, p) && next == Next(list, p, 0);
    forall n | n in list.order && Published(list, n) && x.key < n.key ensures next != null && next.key <= n.key {
      var q :| 0 <= q < |list.order| && list.order[q] == n && list.heights[q] > 0;
      assert q > p;
    }
  }

  // ----- the stores and loads of the program -----

  /** A load in a list whose links are those of its towers is a step of a search. */
  lemma LoadsLink(list: List, order: seq<Node>, heights: seq<nat>, p: int, level: nat)
    requires list.Wired(order, heights) && -1 <= p < |order| && level < TopOf(heights, p)
    ensures Good(Links(order, heights))
    ensures
      var n := if p < 0 then list.head else order[p];
      level < |n.next| && Leads(Links(order, heights), if p < 0 then null else order[p], level, n.next[level])
  {
    assert list.Linked(order, heights, p, level);
    assert Stands(Links(order, heights), if p < 0 then null else order[p], p);
  }

  ghost function Writes(lists: seq<Links>): seq<Event> {
    seq(|lists|, i requires 0 <= i < |lists| => Written(lists[i]))
  }

  /** The stores of insertions are steps of a run, whatever a reader does between them. */
  lemma {:induction false} StoresAreRun(lists: seq<Links>, target: Target, r: Reader)
    requires Stored(lists)
    ensures Good(lists[0]) && Runs(lists[0], r, target, Writes(lists[1..]), lists[|lists| - 1], r)
    decreases |lists|
  {
    hide Store, Good;
    if |lists| > 1 {
      var rest, events := lists[1..], Writes(lists[1..]);
      assert Stored(rest) && events[1..] == Writes(rest[1..]);
      StoresAreRun(rest, target, r);
    }
  }

  /** The key being inserted is found by every search that starts once its lowest level is
      linked. */
  lemma NewKeyIsFound(order: seq<Node>, heights: seq<nat>, s: nat, x: Node, i: nat, r0: Reader, events: seq<Event>, list: Links,
                      r: Reader, r': Reader)
    requires s <= |order| == |heights| && i > 0 && Good(With(order, heights, s, x, i)) && Starts(r0)
    requires Runs(With(order, heights, s, x, i), r0, At(x.key), events, list, r)
    requires Good(list) && r.Looking? && Load(list, At(x.key), r, r') && r'.Stopped?
    ensures r'.next != null && r'.next.key == x.key
  {
    hide Load, Runs, Good;
    var list0 := With(order, heights, s, x, i);
    assert list0.order[s] == x && list0.heights[s] == i;
    KeyIsFound(list0, r0, x.key, events, list, r, r');
  }
}
