/** The order in which the pool starts work: in every run, first come is first started, among the
    fast requests and among the slow ones, and no item of the queue overtakes another. */
module ThreadOrder {
  import opened ThreadPool

  // ----- what a run has done -----

  /** The requests submitted, in order. */
  function Submitted(run: seq<Action>, slow: bool): seq<nat> {
    if run == [] then []
    else (if run[0].Submit? && run[0].slow == slow then [run[0].id] else []) + Submitted(run[1..], slow)
  }

  function At(t: Thread, slow: bool): seq<nat> {
    if t.Working? && t.slow == slow then [t.id] else []
  }

  /** The request that a step starts: a worker is at it now that was ready before. */
  function StartedBy(s: State, a: Action, slow: bool): seq<nat>
    requires Enabled(s, a)
  {
    if a.Take? && a.t < |Apply(s, a).threads| then At(Apply(s, a).threads[a.t], slow) else []
  }

  /** The requests started, in order. */
  function Started(s0: State, run: seq<Action>, slow: bool): seq<nat>
    decreases |run|
  {
    if run == [] || !Enabled(s0, run[0]) then []
    else StartedBy(s0, run[0], slow) + Started(Apply(s0, run[0]), run[1..], slow)
  }

  /** The items that enter the queue: fast work, and the marker when there was none or it has
      just been taken. */
  function PutBy(s: State, a: Action): seq<Item>
    requires Enabled(s, a)
  {
    if a.Submit? && !a.slow then [Work(a.id)]
    else if a.Submit? then if Marker in s.wq then [] else [Marker]
    else if a.Take? && TakenBy(s, a) == [Marker] && Marker in Apply(s, a).wq then [Marker]
    else []
  }

  function Put(s0: State, run: seq<Action>): seq<Item>
    decreases |run|
  {
    if run == [] || !Enabled(s0, run[0]) then [] else PutBy(s0, run[0]) + Put(Apply(s0, run[0]), run[1..])
  }

  /** ... and leave it to a worker. */
  function TakenBy(s: State, a: Action): seq<Item> {
    if a.Take? && !MustWait(s) && s.wq != [] then [s.wq[0]] else []
  }

  function Taken(s0: State, run: seq<Action>): seq<Item>
    decreases |run|
  {
    if run == [] || !Enabled(s0, run[0]) then [] else TakenBy(s0, run[0]) + Taken(Apply(s0, run[0]), run[1..])
  }

  function Works(wq: seq<Item>): seq<nat> {
    if wq == [] then [] else (if wq[0].Work? then [wq[0].id] else []) + Works(wq[1..])
  }

  ghost function CancelledIds(s: State): set<nat> {
    set id | id in s.work && s.work[id].Cancelled?
  }

  ghost function CancelledItems(s: State): set<Item> {
    set id | id in s.work && s.work[id].Cancelled? :: Work(id)
  }

  // ----- lines -----

  ghost function Less<T>(xs: seq<T>, gone: set<T>): seq<T> {
    if xs == [] then []
    else
      var n := |xs| - 1;
      Less(xs[..n], gone) + if xs[n] in gone then [] else [xs[n]]
  }

  /** First in, first out, but for those that have gone. */
  ghost predicate Line<T>(put: seq<T>, taken: seq<T>, q: seq<T>, gone: set<T>) {
    taken + q == Less(put, gone)
  }

  lemma LessOne<T>(xs: seq<T>, gone: set<T>, x: T)
    ensures Less(xs + [x], gone) == Less(xs, gone) + if x in gone then [] else [x]
  {
    assert (xs + [x])[..|xs|] == xs;
  }

  lemma LessEmpty<T>(gone: set<T>)
    ensures Less([], gone) == []
  {
  }

  lemma {:induction false} LessJoins<T>(a: seq<T>, b: seq<T>, gone: set<T>)
    ensures Less(a + b, gone) == Less(a, gone) + Less(b, gone)
  {
    hide Less;
    if b == [] {
      assert a + b == a && Less(a, gone) + [] == Less(a, gone);
      LessEmpty(gone);
    } else {
      var n := |b| - 1;
      LessJoins(a, b[..n], gone);
      LessOne(a + b[..n], gone, b[n]);
      assert a + b == a + b[..n] + [b[n]];
      var last := if b[n] in gone then [] else [b[n]];
      LessOne(b[..n], gone, b[n]);
      assert b == b[..n] + [b[n]];
      assert Less(a, gone) + Less(b, gone) == Less(a, gone) + Less(b[..n], gone) + last;
    }
  }

  lemma {:induction false} LessNone<T>(xs: seq<T>, gone: set<T>)
    requires forall x :: x in xs ==> x !in gone
    ensures Less(xs, gone) == xs
  {
    if xs != [] {
      LessNone(xs[..|xs| - 1], gone);
    }
  }

  lemma {:induction false} LessDrops<T>(xs: seq<T>, gone: set<T>, x: T)
    ensures Less(xs, gone + {x}) == Less(Less(xs, gone), {x})
  {
    if xs != [] {
      var n := |xs| - 1;
      LessDrops(xs[..n], gone, x);
      var front := Less(xs[..n], gone);
      LessOne(front, {x}, xs[n]);
      assert front + [] == front;
    }
  }

  lemma {:induction false} LessIsRemove<T>(q: seq<T>, x: T)
    requires multiset(q)[x] <= 1
    ensures Less(q, {x}) == Remove(q, x)
  {
    hide Less;
    LessEmpty({x});
    if q != [] {
      var rest := q[1..];
      assert q == [q[0]] + rest && [] + [q[0]] == [q[0]] && [] + rest == rest;
      LessJoins([q[0]], rest, {x});
      LessOne([], {x}, q[0]);
      if q[0] == x {
        LessNone(rest, {x});
      } else {
        LessIsRemove(rest, x);
      }
    }
  }

  lemma LinePut<T>(put: seq<T>, taken: seq<T>, q: seq<T>, gone: set<T>, x: T)
    requires Line(put, taken, q, gone) && x !in gone
    ensures Line(put + [x], taken, q + [x], gone)
  {
    LessOne(put, gone, x);
    assert taken + (q + [x]) == taken + q + [x];
  }

  lemma LineTake<T>(put: seq<T>, taken: seq<T>, q: seq<T>, gone: set<T>)
    requires Line(put, taken, q, gone) && q != []
    ensures Line(put, taken + [q[0]], q[1..], gone)
  {
    assert taken + [q[0]] + q[1..] == taken + q;
  }

  lemma LineDrop<T>(put: seq<T>, taken: seq<T>, q: seq<T>, gone: set<T>, x: T)
    requires Line(put, taken, q, gone) && x !in taken && multiset(q)[x] <= 1
    ensures Line(put, taken, Remove(q, x), gone + {x})
  {
    LessDrops(put, gone, x);
    LessJoins(taken, q, {x});
    LessNone(taken, {x});
    LessIsRemove(q, x);
  }

  lemma NoWorks()
    ensures Works([]) == []
  {
  }

  lemma WorksFront(x: Item, rest: seq<Item>)
    ensures Works([x] + rest) == (if x.Work? then [x.id] else []) + Works(rest)
  {
    assert ([x] + rest)[1..] == rest;
  }

  lemma {:induction false} WorksJoin(a: seq<Item>, b: seq<Item>)
    ensures Works(a + b) == Works(a) + Works(b)
  {
    hide Works;
    if a == [] {
      NoWorks();
      assert a + b == b && [] + Works(b) == Works(b);
    } else {
      WorksJoin(a[1..], b);
      WorksFront(a[0], a[1..] + b);
      WorksFront(a[0], a[1..]);
      assert a + b == [a[0]] + (a[1..] + b) && a == [a[0]] + a[1..];
    }
  }

  lemma FrontRemoved(q: seq<nat>, x: nat, y: nat)
    ensures Remove([x] + q, y) == if x == y then q else [x] + Remove(q, y)
  {
    assert ([x] + q)[1..] == q;
  }

  lemma {:induction false} WorksRemove(wq: seq<Item>, id: nat)
    ensures Works(Remove(wq, Work(id))) == Remove(Works(wq), id)
  {
    if wq != [] {
      var x, rest := wq[0], wq[1..];
      FrontRemoved(Works(rest), if x.Work? then x.id else 0, id);
      assert [] + Works(rest) == Works(rest);
      if x != Work(id) {
        WorksRemove(rest, id);
        WorksFront(x, Remove(rest, Work(id)));
      }
    }
  }

  lemma {:induction false} WorksCount(wq: seq<Item>, id: nat)
    ensures multiset(Works(wq))[id] == multiset(wq)[Work(id)]
  {
    hide Works;
    if wq == [] {
      NoWorks();
    } else {
      WorksCount(wq[1..], id);
      WorksFront(wq[0], wq[1..]);
      assert wq == [wq[0]] + wq[1..];
    }
  }

  // ----- every step keeps the order -----

  /** What has been submitted and started, and put and taken. */
  datatype History = History(fast: seq<nat>, fastStarted: seq<nat>, slow: seq<nat>, slowStarted: seq<nat>, put: seq<Item>, taken: seq<Item>)

  ghost predicate Orderly(s: State, h: History) {
    && Line(h.put, h.taken, s.wq, CancelledItems(s))
    && Line(h.fast, h.fastStarted, Works(s.wq), CancelledIds(s))
    && Line(h.slow, h.slowStarted, s.slowPending, CancelledIds(s))
    && (forall id :: id in h.fastStarted + h.slowStarted ==> id in s.ran)
    && forall id :: Work(id) in h.taken ==> id in s.ran
  }

  ghost function Then(h: History, s: State, a: Action): History
    requires Enabled(s, a)
  {
    History(h.fast + Submitted([a], false), h.fastStarted + StartedBy(s, a, false),
            h.slow + Submitted([a], true), h.slowStarted + StartedBy(s, a, true), h.put + PutBy(s, a), h.taken + TakenBy(s, a))
  }

  lemma OneSubmitted(a: Action, slow: bool)
    ensures Submitted([a], slow) == if a.Submit? && a.slow == slow then [a.id] else []
  {
    assert [a][1..] == [];
  }

  /** Steps that touch neither queue. */
  lemma NothingMoves(s: State, a: Action, h: History)
    requires Enabled(s, a) && Inv(s) && Orderly(s, h)
    requires a.Wake? || a.Finish? || a.Relock? || a.PostCancelled? || a.Collect? || a.Deliver? || (a.Take? && MustWait(s))
    ensures Orderly(Apply(s, a), Then(h, s, a))
  {
    hide Line, Works, Conserved, Marked, Throttled, Awake;
    OneSubmitted(a, false);
    OneSubmitted(a, true);
    if a.Finish? {
      assert s.threads[a.t] in s.threads;
      assert ToldOf(s, s.threads[a.t].id);
    }
    assert CancelledIds(Apply(s, a)) == CancelledIds(s) && CancelledItems(Apply(s, a)) == CancelledItems(s);
    assert Then(h, s, a) == h;
  }

  lemma SubmitPuts(s: State, a: Action)
    requires a.Submit? && Enabled(s, a)
    ensures
      var s' := Apply(s, a);
      && s'.wq == s.wq + PutBy(s, a) && s'.slowPending == (if a.slow then s.slowPending + [a.id] else s.slowPending)
      && s'.work == s.work[a.id := Function] && s'.ran == s.ran
    ensures TakenBy(s, a) == [] && StartedBy(s, a, true) == [] && StartedBy(s, a, false) == []
    ensures PutBy(s, a) == if !a.slow then [Work(a.id)] else if Marker in s.wq then [] else [Marker]
  {
    assert s.wq + [] == s.wq;
  }

  lemma SubmitKeeps(s: State, a: Action, h: History)
    requires a.Submit? && Enabled(s, a) && Orderly(s, h)
    ensures Orderly(Apply(s, a), Then(h, s, a))
  {
    hide Line, Works, Apply, PutBy, TakenBy, StartedBy;
    var s' := Apply(s, a);
    SubmitPuts(s, a);
    OneSubmitted(a, false);
    OneSubmitted(a, true);
    assert CancelledIds(s') == CancelledIds(s) && CancelledItems(s') == CancelledItems(s);
    assert a.id !in CancelledIds(s) && Work(a.id) !in CancelledItems(s) && Marker !in CancelledItems(s);
    assert h.put + [] == h.put && h.taken + [] == h.taken && h.fast + [] == h.fast && h.slow + [] == h.slow
      && h.fastStarted + [] == h.fastStarted && h.slowStarted + [] == h.slowStarted && s.wq + [] == s.wq
      && Works(s.wq) + [] == Works(s.wq);
    if PutBy(s, a) != [] {
      WorksOne(s.wq, PutBy(s, a)[0]);
      LinePut(h.put, h.taken, s.wq, CancelledItems(s), PutBy(s, a)[0]);
    }
    if a.slow {
      LinePut(h.slow, h.slowStarted, s.slowPending, CancelledIds(s), a.id);
    } else {
      LinePut(h.fast, h.fastStarted, Works(s.wq), CancelledIds(s), a.id);
    }
  }

  lemma WorksOne(wq: seq<Item>, x: Item)
    ensures Works(wq + [x]) == Works(wq) + if x.Work? then [x.id] else []
  {
    WorksJoin(wq, [x]);
    assert [x][1..] == [];
  }

  lemma QueuedOnce(s: State, id: nat)
    requires Inv(s)
    ensures multiset(s.wq)[Work(id)] <= 1 && multiset(s.slowPending)[id] <= 1
  {
    OnePlace(s, id);
  }

  lemma CancelKeeps(s: State, a: Action, h: History)
    requires a.Cancel? && Enabled(s, a) && Inv(s) && Orderly(s, h)
    ensures Orderly(Apply(s, a), Then(h, s, a))
  {
    hide Line, Works, Remove, InQueue, Apply, Inv, Copies, ToldOf;
    var s', id := Apply(s, a), a.id;
    CancelApplied(s, a);
    OneSubmitted(a, false);
    OneSubmitted(a, true);
    assert Then(h, s, a) == h;
    if InQueue(s, id) && !s.work[id].Null? {
      CancelSucceeds(s, id);
      QueuedOnce(s, id);
      assert CancelledIds(s') == CancelledIds(s) + {id} && CancelledItems(s') == CancelledItems(s) + {Work(id)};
      WorksCount(s.wq, id);
      WorksRemove(s.wq, id);
      LineDrop(h.put, h.taken, s.wq, CancelledItems(s), Work(id));
      LineDrop(h.fast, h.fastStarted, Works(s.wq), CancelledIds(s), id);
      LineDrop(h.slow, h.slowStarted, s.slowPending, CancelledIds(s), id);
    }
  }

  lemma TakeFast(s: State, a: Action)
    requires a.Take? && Enabled(s, a) && !MustWait(s) && s.wq != [] && s.wq[0].Work?
    ensures TakenBy(s, a) == [s.wq[0]] && PutBy(s, a) == [] && StartedBy(s, a, false) == [s.wq[0].id] && StartedBy(s, a, true) == []
    ensures
      var s' := Apply(s, a);
      s'.wq == s.wq[1..] && s'.slowPending == s.slowPending && s'.work == s.work && s'.ran == s.ran + {s.wq[0].id}
  {
    hide Apply, MustWait;
    TakeIs(s, a);
  }

  /** A worker takes fast work from the front. */
  lemma TakeFastKeeps(s: State, a: Action, h: History)
    requires a.Take? && Enabled(s, a) && !MustWait(s) && s.wq != [] && s.wq[0].Work? && Orderly(s, h)
    ensures Orderly(Apply(s, a), Then(h, s, a))
  {
    hide Line, Apply, MustWait, PutBy, TakenBy, StartedBy;
    TakeFast(s, a);
    OneSubmitted(a, false);
    OneSubmitted(a, true);
    var s', id := Apply(s, a), s.wq[0].id;
    SameCancelled(s, s');
    assert Works(s.wq) == [id] + Works(s.wq[1..]) && Works(s.wq)[1..] == Works(s.wq[1..]);
    LineTake(h.put, h.taken, s.wq, CancelledItems(s));
    LineTake(h.fast, h.fastStarted, Works(s.wq), CancelledIds(s));
    assert h.put + [] == h.put && h.fast + [] == h.fast && h.slow + [] == h.slow && h.slowStarted + [] == h.slowStarted;
    assert Then(h, s, a) == h.(fastStarted := h.fastStarted + [id], taken := h.taken + [s.wq[0]]);
  }

  /** What becomes of the marker in front: it goes, or goes behind all others. */
  lemma TakeSlowMarker(s: State, a: Action)
    requires a.Take? && Enabled(s, a) && !MustWait(s) && s.wq != [] && s.wq[0].Marker? && Marked(s)
    ensures TakenBy(s, a) == [Marker] && PutBy(s, a) == if Marker in Apply(s, a).wq then [Marker] else []
    ensures Apply(s, a).wq == s.wq[1..] + PutBy(s, a) && Apply(s, a).work == s.work
  {
    hide Apply, Threshold, MustWait;
    TakeIs(s, a);
    PopFront(s.wq);
    var rest := s.wq[1..];
    assert Marker !in rest && (rest + [Marker])[|rest|] == Marker && rest + [] == rest;
  }

  /** ... and the slow work that is started. */
  lemma TakeSlowStarts(s: State, a: Action)
    requires a.Take? && Enabled(s, a) && !MustWait(s) && s.wq != [] && s.wq[0].Marker?
    ensures StartedBy(s, a, false) == []
    ensures
      var s', started := Apply(s, a), StartedBy(s, a, true);
      if started == [] then s'.slowPending == s.slowPending && s'.ran == s.ran
      else
        && s.slowPending != [] && started == [s.slowPending[0]]
        && s'.slowPending == s.slowPending[1..] && s'.ran == s.ran + {s.slowPending[0]}
  {
    hide Apply, Threshold, MustWait;
    TakeIs(s, a);
  }

  lemma WorksWithMarker(wq: seq<Item>, put: seq<Item>)
    requires wq != [] && wq[0].Marker? && (put == [] || put == [Marker])
    ensures Works(wq[1..] + put) == Works(wq)
  {
    WorksJoin(wq[1..], put);
    WorksJoin([], put);
    assert put != [] ==> put[1..] == [];
  }

  lemma TakeSlowKeeps(s: State, a: Action, h: History)
    requires a.Take? && Enabled(s, a) && !MustWait(s) && s.wq != [] && s.wq[0].Marker? && Marked(s) && Orderly(s, h)
    ensures Orderly(Apply(s, a), Then(h, s, a))
  {
    hide Line, Works, Apply, MustWait, Marked, Enabled, PutBy, TakenBy, StartedBy;
    TakeSlowMarker(s, a);
    TakeSlowStarts(s, a);
    OneSubmitted(a, false);
    OneSubmitted(a, true);
    var s', rest := Apply(s, a), s.wq[1..];
    WorksWithMarker(s.wq, PutBy(s, a));
    SameCancelled(s, s');
    LineTake(h.put, h.taken, s.wq, CancelledItems(s));
    if PutBy(s, a) != [] {
      LinePut(h.put, h.taken + [Marker], rest, CancelledItems(s), Marker);
    }
    assert h.put + [] == h.put && rest + [] == rest && h.fast + [] == h.fast && h.slow + [] == h.slow && h.fastStarted + [] == h.fastStarted
      && h.slowStarted + [] == h.slowStarted;
    if StartedBy(s, a, true) != [] {
      LineTake(h.slow, h.slowStarted, s.slowPending, CancelledIds(s));
    }
  }

  lemma SameCancelled(s: State, s': State)
    requires s'.work == s.work
    ensures CancelledIds(s') == CancelledIds(s) && CancelledItems(s') == CancelledItems(s)
  {
  }

  lemma StepKeepsOrder(s: State, a: Action, h: History)
    requires Enabled(s, a) && Inv(s) && Orderly(s, h)
    ensures Orderly(Apply(s, a), Then(h, s, a))
  {
    hide Inv, Orderly, Then, Apply;
    if a.Submit? {
      SubmitKeeps(s, a, h);
    } else if a.Cancel? {
      CancelKeeps(s, a, h);
    } else if a.Take? && !MustWait(s) {
      CanTake(s);
      if s.wq[0].Work? {
        TakeFastKeeps(s, a, h);
      } else {
        assert Marked(s) by { InvMarked(s); }
        TakeSlowKeeps(s, a, h);
      }
    } else {
      NothingMoves(s, a, h);
    }
  }

  lemma InvMarked(s: State)
    requires Inv(s)
    ensures Marked(s)
  {
  }

  ghost function Whole(h: History, s: State, run: seq<Action>): History {
    History(h.fast + Submitted(run, false), h.fastStarted + Started(s, run, false), h.slow + Submitted(run, true),
            h.slowStarted + Started(s, run, true), h.put + Put(s, run), h.taken + Taken(s, run))
  }

  lemma Joined<T>(a: seq<T>, b: seq<T>, c: seq<T>)
    ensures (a + b) + c == a + (b + c)
  {
  }

  lemma FirstOf(s: State, run: seq<Action>)
    requires run != [] && Enabled(s, run[0])
    ensures
      var a, s', rest := run[0], Apply(s, run[0]), run[1..];
      && (forall slow :: Submitted(run, slow) == Submitted([a], slow) + Submitted(rest, slow))
      && (forall slow :: Started(s, run, slow) == StartedBy(s, a, slow) + Started(s', rest, slow))
      && Put(s, run) == PutBy(s, a) + Put(s', rest) && Taken(s, run) == TakenBy(s, a) + Taken(s', rest)
  {
    hide Apply, StartedBy, PutBy, TakenBy, Enabled;
    assert [run[0]][1..] == [];
  }

  lemma OneThenRest(h: History, s: State, run: seq<Action>)
    requires run != [] && Enabled(s, run[0])
    ensures Whole(Then(h, s, run[0]), Apply(s, run[0]), run[1..]) == Whole(h, s, run)
  {
    hide Apply, StartedBy, PutBy, TakenBy, Enabled, Started, Put, Taken, Submitted;
    var a, s', rest := run[0], Apply(s, run[0]), run[1..];
    OneSubmitted(a, false);
    OneSubmitted(a, true);
    FirstOf(s, run);
    Joined(h.fast, Submitted([a], false), Submitted(rest, false));
    Joined(h.slow, Submitted([a], true), Submitted(rest, true));
    Joined(h.fastStarted, StartedBy(s, a, false), Started(s', rest, false));
    Joined(h.slowStarted, StartedBy(s, a, true), Started(s', rest, true));
    Joined(h.put, PutBy(s, a), Put(s', rest));
    Joined(h.taken, TakenBy(s, a), Taken(s', rest));
  }

  lemma {:induction false} RunKeepsOrder(s0: State, run: seq<Action>, s: State, h: History)
    requires Inv(s0) && Reaches(s0, run, s) && Orderly(s0, h)
    ensures Orderly(s, Whole(h, s0, run))
    decreases |run|
  {
    hide Inv, Orderly, Then, Apply;
    if run == [] {
      assert Whole(h, s0, run) == h;
    } else {
      StepKeepsInv(s0, run[0]);
      StepKeepsOrder(s0, run[0], h);
      RunKeepsOrder(Apply(s0, run[0]), run[1..], s, Then(h, s0, run[0]));
      OneThenRest(h, s0, run);
    }
  }

  /** In every run: the fast requests started, and then those in the queue, are the fast requests
      submitted, in order, less the cancelled ones; so are the slow ones with those pending; and
      the queue as a whole, marker included, is first in, first out. */
  lemma FirstComeFirstStarted(nthreads: nat, run: seq<Action>, s: State)
    requires nthreads > 0 && Reaches(Init(nthreads), run, s)
    ensures Started(Init(nthreads), run, false) + Works(s.wq) == Less(Submitted(run, false), CancelledIds(s))
    ensures Started(Init(nthreads), run, true) + s.slowPending == Less(Submitted(run, true), CancelledIds(s))
    ensures Taken(Init(nthreads), run) + s.wq == Less(Put(Init(nthreads), run), CancelledItems(s))
  {
    hide Inv, Reaches, Less, Works, Started, Submitted, Put, Taken, Init, CancelledIds, CancelledItems;
    var s0, none := Init(nthreads), History([], [], [], [], [], []);
    InitInv(nthreads);
    StartsOrderly(nthreads);
    RunKeepsOrder(s0, run, s, none);
    var h := Whole(none, s0, run);
    assert h == History(Submitted(run, false), Started(s0, run, false), Submitted(run, true), Started(s0, run, true), Put(s0, run), Taken(s0, run));
  }

  lemma StartsOrderly(nthreads: nat)
    ensures Orderly(Init(nthreads), History([], [], [], [], [], []))
  {
    assert Works([]) == [] && Less<nat>([], {}) == [] && Less<Item>([], {}) == [];
    assert CancelledIds(Init(nthreads)) == {} && CancelledItems(Init(nthreads)) == {};
  }

  // ----- the order of delivery -----

  /** The requests whose work was finished, in order. */
  function Finished(s0: State, run: seq<Action>): seq<nat>
    decreases |run|
  {
    if run == [] || !Enabled(s0, run[0]) then [] else FinishedBy(s0, run[0]) + Finished(Apply(s0, run[0]), run[1..])
  }

  function FinishedBy(s: State, a: Action): seq<nat>
    requires Enabled(s, a)
  {
    if a.Finish? then [s.threads[a.t].id] else []
  }

  function Ids(done: seq<Done>): seq<nat> {
    if done == [] then [] else Ids(done[..|done| - 1]) + [done[|done| - 1].id]
  }

  /** Those of them that ran. */
  function Ran(ids: seq<nat>, ran: set<nat>): seq<nat> {
    if ids == [] then [] else Ran(ids[..|ids| - 1], ran) + if ids[|ids| - 1] in ran then [ids[|ids| - 1]] else []
  }

  /** Delivered, about to be, and waiting for the loop. */
  function Results(s: State): seq<nat> {
    Ids(s.done) + s.localQ + s.loopQ
  }

  lemma RanOne(ids: seq<nat>, ran: set<nat>, id: nat)
    ensures Ran(ids + [id], ran) == Ran(ids, ran) + if id in ran then [id] else []
  {
    assert (ids + [id])[..|ids|] == ids;
  }

  lemma {:induction false} RanJoins(a: seq<nat>, b: seq<nat>, ran: set<nat>)
    ensures Ran(a + b, ran) == Ran(a, ran) + Ran(b, ran)
  {
    hide Ran;
    if b == [] {
      NoneRan(ran);
      assert a + b == a && Ran(a, ran) + [] == Ran(a, ran);
    } else {
      var n := |b| - 1;
      RanJoins(a, b[..n], ran);
      RanOne(a + b[..n], ran, b[n]);
      RanOne(b[..n], ran, b[n]);
      assert a + b == a + b[..n] + [b[n]] && b == b[..n] + [b[n]];
    }
  }

  lemma NoneRan(ran: set<nat>)
    ensures Ran([], ran) == []
  {
  }

  lemma {:induction false} RanMore(ids: seq<nat>, ran: set<nat>, id: nat)
    requires id !in ids
    ensures Ran(ids, ran + {id}) == Ran(ids, ran)
  {
    if ids != [] {
      RanMore(ids[..|ids| - 1], ran, id);
    }
  }

  lemma {:induction false} RanLess(ids: seq<nat>, ran: set<nat>, id: nat)
    requires id !in ran
    ensures Ran(Remove(ids, id), ran) == Ran(ids, ran)
  {
    hide Ran;
    if ids != [] {
      var rest := ids[1..];
      assert ids == [ids[0]] + rest && [] + [ids[0]] == [ids[0]];
      RanJoins([ids[0]], rest, ran);
      NoneRan(ran);
      RanOne([], ran, ids[0]);
      if ids[0] != id {
        RanLess(rest, ran, id);
        RanJoins([ids[0]], Remove(rest, id), ran);
      } else {
        assert [] + Ran(rest, ran) == Ran(rest, ran);
      }
    }
  }

  lemma ThreeRan(a: seq<nat>, b: seq<nat>, c: seq<nat>, ran: set<nat>)
    ensures Ran(a + b + c, ran) == Ran(a, ran) + Ran(b, ran) + Ran(c, ran)
  {
    RanJoins(a + b, c, ran);
    RanJoins(a, b, ran);
  }

  lemma {:induction false} IdsHave(done: seq<Done>, id: nat)
    requires id in Ids(done)
    ensures Done(id, true) in done || Done(id, false) in done
  {
    var n := |done| - 1;
    if id in Ids(done[..n]) {
      IdsHave(done[..n], id);
    } else {
      assert done[n] == Done(id, done[n].cancelled);
    }
  }

  /** A request that waits to be started is not among the results. */
  lemma NoResultYet(s: State, id: nat)
    requires Inv(s) && (Work(id) in s.wq || id in s.slowPending)
    ensures id !in Results(s)
  {
    OnePlace(s, id);
    if id in Ids(s.done) {
      IdsHave(s.done, id);
    }
  }

  lemma TakeKeepsResults(s: State, a: Action)
    requires a.Take? && Enabled(s, a) && Inv(s)
    ensures Results(Apply(s, a)) == Results(s) && Ran(Results(s), Apply(s, a).ran) == Ran(Results(s), s.ran)
  {
    hide Inv, Apply, Ran, Results, MustWait;
    TakeKeepsQueues(s, a);
    if Apply(s, a).ran != s.ran {
      var id :| Apply(s, a).ran == s.ran + {id} && (Work(id) in s.wq || id in s.slowPending);
      NoResultYet(s, id);
      RanMore(Results(s), s.ran, id);
    }
  }

  lemma TakeKeepsQueues(s: State, a: Action)
    requires a.Take? && Enabled(s, a)
    ensures
      var s' := Apply(s, a);
      && s'.done == s.done && s'.localQ == s.localQ && s'.loopQ == s.loopQ && Results(s') == Results(s)
      && (s'.ran == s.ran || exists id :: s'.ran == s.ran + {id} && (Work(id) in s.wq || id in s.slowPending))
  {
    hide Apply, Ids;
    TakeIs(s, a);
    if !MustWait(s) {
      CanTake(s);
      if s.wq[0].Work? {
        assert Work(s.wq[0].id) in s.wq;
      } else if s.slowPending != [] {
        assert s.slowPending[0] in s.slowPending;
      }
    }
  }

  lemma CancelKeepsResults(s: State, a: Action)
    requires a.Cancel? && Enabled(s, a) && Inv(s)
    ensures Ran(Results(Apply(s, a)), Apply(s, a).ran) == Ran(Results(s), s.ran)
  {
    hide Inv, Apply, Ran, Ids, Remove, InQueue;
    CancelApplied(s, a);
    if InQueue(s, a.id) && !s.work[a.id].Null? {
      CancelSucceeds(s, a.id);
      ThreeRan(Ids(s.done), s.localQ, s.loopQ, s.ran);
      ThreeRan(Ids(s.done), Remove(s.localQ, a.id), Remove(s.loopQ, a.id), s.ran);
      RanLess(s.localQ, s.ran, a.id);
      RanLess(s.loopQ, s.ran, a.id);
    }
  }

  lemma DeliverKeepsResults(s: State, a: Action)
    requires a.Deliver? && Enabled(s, a)
    ensures Results(Apply(s, a)) == Results(s)
  {
    hide Ids;
    var id := s.localQ[0];
    IdsOne(s.done, Done(id, s.work[id].Cancelled?));
    Handed(Ids(s.done), s.localQ, s.loopQ);
  }

  lemma IdsOne(done: seq<Done>, d: Done)
    ensures Ids(done + [d]) == Ids(done) + [d.id]
  {
    assert (done + [d])[..|done|] == done;
  }

  lemma Handed(a: seq<nat>, b: seq<nat>, c: seq<nat>)
    requires b != []
    ensures (a + [b[0]]) + b[1..] + c == a + b + c
  {
    assert b == [b[0]] + b[1..];
    assert (a + [b[0]]) + b[1..] == a + b;
  }

  /** Each step adds to the results that ran just what it finishes. */
  lemma StepKeepsResults(s: State, a: Action)
    requires Enabled(s, a) && Inv(s)
    ensures Ran(Results(Apply(s, a)), Apply(s, a).ran) == Ran(Results(s), s.ran) + FinishedBy(s, a)
  {
    hide Ran, Ids, Inv;
    var was := Results(s);
    assert Ran(was, s.ran) + [] == Ran(was, s.ran);
    match a
    case Take(_, _) => TakeKeepsResults(s, a);
    case Cancel(_) => CancelKeepsResults(s, a);
    case Deliver => DeliverKeepsResults(s, a);
    case Finish(t) =>
      FinishHasRun(s, t);
      assert Results(Apply(s, a)) == was + [s.threads[t].id];
      RanOne(was, s.ran, s.threads[t].id);
    case PostCancelled =>
      NotRunYet(s);
      assert Results(Apply(s, a)) == was + [s.cancelling.value];
      RanOne(was, s.ran, s.cancelling.value);
    case Collect =>
      assert Results(Apply(s, a)) == was;
    case _ =>
  }

  lemma FinishHasRun(s: State, t: nat)
    requires Enabled(s, Finish(t)) && Inv(s)
    ensures s.threads[t].id in s.ran
  {
    hide Conserved;
    assert s.threads[t] in s.threads && ToldOf(s, s.threads[t].id);
  }

  lemma NotRunYet(s: State)
    requires s.cancelling.Some? && Inv(s)
    ensures s.cancelling.value !in s.ran
  {
    OnePlace(s, s.cancelling.value);
    assert ToldOf(s, s.cancelling.value);
  }

  lemma {:induction false} RunKeepsResults(s0: State, run: seq<Action>, s: State)
    requires Inv(s0) && Reaches(s0, run, s)
    ensures Ran(Results(s), s.ran) == Ran(Results(s0), s0.ran) + Finished(s0, run)
    decreases |run|
  {
    hide Inv, Apply, Ran, Results, FinishedBy;
    if run == [] {
      assert Ran(Results(s), s.ran) + [] == Ran(Results(s), s.ran);
    } else {
      StepKeepsInv(s0, run[0]);
      StepKeepsResults(s0, run[0]);
      RunKeepsResults(Apply(s0, run[0]), run[1..], s);
      Joined(Ran(Results(s0), s0.ran), FinishedBy(s0, run[0]), Finished(Apply(s0, run[0]), run[1..]));
    }
  }

  /** In every run: the results of requests that ran are delivered in the order in which their
      work was finished, none left out. */
  lemma FirstFinishedFirstDelivered(nthreads: nat, run: seq<Action>, s: State)
    requires nthreads > 0 && Reaches(Init(nthreads), run, s)
    ensures Ran(Ids(s.done) + s.localQ + s.loopQ, s.ran) == Finished(Init(nthreads), run)
  {
    hide Inv, Reaches, Finished;
    InitInv(nthreads);
    RunKeepsResults(Init(nthreads), run, s);
    var s0 := Init(nthreads);
    assert Results(s0) == [] && Ran([], s0.ran) == [];
    assert [] + Finished(s0, run) == Finished(s0, run);
  }
}
