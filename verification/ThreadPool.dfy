/** The work queue shared by the pool's worker threads and one event loop. Every step
    below is one critical section of the program; threads interleave between steps. */
module ThreadPool {

  datatype Item = Marker | Work(id: nat)

  /** Where a worker thread is. Only one in `Ready` competes for the mutex at the top of
      its loop; `Returning` is between delivering a result and locking again. */
  datatype Thread = Ready | Waiting | Working(id: nat, slow: bool) | Returning(slow: bool)

  /** The `work` pointer of a request. */
  datatype WorkField = Function | Null | Cancelled

  datatype Done = Done(id: nat, cancelled: bool)

  datatype Option<T> = None | Some(value: T)

  datatype State = State(
    wq: seq<Item>,
    slowPending: seq<nat>,
    slowRunning: nat,
    idle: nat,
    threads: seq<Thread>,
    loopQ: seq<nat>,
    localQ: seq<nat>,
    cancelling: Option<nat>,
    work: map<nat, WorkField>,
    ran: set<nat>,
    done: seq<Done>)

  function Threshold(nthreads: nat): nat {
    (nthreads + 1) / 2
  }

  function Init(nthreads: nat): State {
    State([], [], 0, 0, seq(nthreads, _ => Ready), [], [], None, map[], {}, [])
  }

  // ----- the steps -----

  datatype Action =
    | Submit(id: nat, slow: bool, wakee: nat)   // uv__work_submit, post
    | Take(t: nat, wakee: nat)                  // top of the worker loop
    | Wake(t: nat)                              // return from uv_cond_wait, spurious or not
    | Finish(t: nat)                            // work function returns, result to the loop
    | Relock(t: nat)
    | Cancel(id: nat)                           // uv__work_cancel up to the two unlocks
    | PostCancelled                             // ... and from there on
    | Collect                                   // uv__work_done takes the loop's queue
    | Deliver                                   // ... and calls one done callback

  /** uv_cond_signal needs a thread to wake when one waits. */
  predicate CanSignal(s: State, wakee: nat) {
    s.idle > 0 ==> wakee < |s.threads| && s.threads[wakee].Waiting?
  }

  function Signal(s: State, wakee: nat): State
    requires CanSignal(s, wakee)
  {
    if s.idle > 0 then s.(threads := s.threads[wakee := Ready], idle := s.idle - 1) else s
  }

  predicate MustWait(s: State) {
    s.wq == [] || (s.wq == [Marker] && s.slowRunning >= Threshold(|s.threads|))
  }

  predicate InQueue(s: State, id: nat) {
    Work(id) in s.wq || id in s.slowPending || id in s.loopQ || id in s.localQ
  }

  predicate Enabled(s: State, a: Action) {
    match a
    case Submit(id, slow, wakee) => id !in s.work && s.cancelling.None? && CanSignal(s, wakee)
    case Take(t, wakee) => t < |s.threads| && s.threads[t].Ready? && CanSignal(s, wakee)
    case Wake(t) => t < |s.threads| && s.threads[t].Waiting? && s.idle > 0
    case Finish(t) => t < |s.threads| && s.threads[t].Working? && s.threads[t].id in s.work
    case Relock(t) => t < |s.threads| && s.threads[t].Returning? && (s.threads[t].slow ==> s.slowRunning > 0)
    case Cancel(id) => id in s.work && s.cancelling.None? && forall d :: d in s.done ==> d.id != id
    case PostCancelled => s.cancelling.Some?
    case Collect => s.cancelling.None? && s.localQ == []
    case Deliver => s.cancelling.None? && s.localQ != [] && s.localQ[0] in s.work
  }

  function Remove<T(==)>(q: seq<T>, x: T): seq<T> {
    if q == [] then [] else if q[0] == x then q[1..] else [q[0]] + Remove(q[1..], x)
  }

  function Apply(s: State, a: Action): State
    requires Enabled(s, a)
  {
    match a
    case Submit(id, slow, wakee) =>
      var s1 := s.(work := s.work[id := Function]);
      if slow then
        var s2 := s1.(slowPending := s.slowPending + [id]);
        if Marker in s.wq then s2 else Signal(s2.(wq := s.wq + [Marker]), wakee)
      else Signal(s1.(wq := s.wq + [Work(id)]), wakee)
    case Take(t, wakee) => ApplyTake(s, t, wakee)
    case Wake(t) => s.(threads := s.threads[t := Ready], idle := s.idle - 1)
    case Finish(t) =>
      var id := s.threads[t].id;
      s.(work := s.work[id := Null], loopQ := s.loopQ + [id], threads := s.threads[t := Returning(s.threads[t].slow)])
    case Relock(t) =>
      s.(threads := s.threads[t := Ready], slowRunning := if s.threads[t].slow then s.slowRunning - 1 else s.slowRunning)
    case Cancel(id) =>
      if InQueue(s, id) && !s.work[id].Null? then
        s.(wq := Remove(s.wq, Work(id)), slowPending := Remove(s.slowPending, id),
           loopQ := Remove(s.loopQ, id), localQ := Remove(s.localQ, id),
           cancelling := Some(id), work := s.work[id := Cancelled])
      else s
    case PostCancelled => s.(loopQ := s.loopQ + [s.cancelling.value], cancelling := None)
    case Collect => s.(localQ := s.loopQ, loopQ := [])
    case Deliver =>
      var id := s.localQ[0];
      s.(localQ := s.localQ[1..], done := s.done + [Done(id, s.work[id].Cancelled?)])
  }

  function ApplyTake(s: State, t: nat, wakee: nat): State
    requires Enabled(s, Take(t, wakee))
  {
    if MustWait(s) then s.(threads := s.threads[t := Waiting], idle := s.idle + 1)
    else
      var rest := s.wq[1..];
      match s.wq[0]
      case Work(id) => s.(wq := rest, threads := s.threads[t := Working(id, false)], ran := s.ran + {id})
      case Marker =>
        if s.slowRunning >= Threshold(|s.threads|) then s.(wq := rest + [Marker])
        else if s.slowPending == [] then s.(wq := rest)
        else
          if s.slowPending[1..] == [] then StartSlow(s, t).(wq := rest)
          else Signal(StartSlow(s, t).(wq := rest + [Marker]), wakee)
  }

  function StartSlow(s: State, t: nat): State
    requires t < |s.threads| && s.slowPending != []
  {
    var id := s.slowPending[0];
    s.(slowPending := s.slowPending[1..], slowRunning := s.slowRunning + 1,
       threads := s.threads[t := Working(id, true)], ran := s.ran + {id})
  }

  /** The top of the worker's loop, case by case. */
  lemma TakeIs(s: State, a: Action)
    requires a.Take? && Enabled(s, a)
    ensures MustWait(s) ==> Apply(s, a) == s.(threads := s.threads[a.t := Waiting], idle := s.idle + 1)
    ensures !MustWait(s) && s.wq[0].Work? ==>
      Apply(s, a) == s.(wq := s.wq[1..], threads := s.threads[a.t := Working(s.wq[0].id, false)], ran := s.ran + {s.wq[0].id})
    ensures !MustWait(s) && s.wq[0].Marker? && s.slowRunning >= Threshold(|s.threads|) ==> Apply(s, a) == s.(wq := s.wq[1..] + [Marker])
    ensures !MustWait(s) && s.wq[0].Marker? && s.slowRunning < Threshold(|s.threads|) ==>
      if s.slowPending == [] then Apply(s, a) == s.(wq := s.wq[1..])
      else if s.slowPending[1..] == [] then Apply(s, a) == StartSlow(s, a.t).(wq := s.wq[1..])
      else Apply(s, a) == Signal(StartSlow(s, a.t).(wq := s.wq[1..] + [Marker]), a.wakee)
  {
    hide Signal, StartSlow, Threshold;
  }

  // ----- what every step keeps -----

  /** How often request `id` occurs over all the places a request can be. */
  ghost function Copies(s: State, id: nat): nat {
    multiset(s.wq)[Work(id)] + multiset(s.slowPending)[id]
    + multiset(s.threads)[Working(id, true)] + multiset(s.threads)[Working(id, false)]
    + (if s.cancelling == Some(id) then 1 else 0)
    + multiset(s.loopQ)[id] + multiset(s.localQ)[id]
    + multiset(s.done)[Done(id, true)] + multiset(s.done)[Done(id, false)]
  }

  predicate OnSlowWork(t: Thread) {
    (t.Working? || t.Returning?) && t.slow
  }

  function CountSlow(ts: seq<Thread>): nat {
    if ts == [] then 0 else (if OnSlowWork(ts[0]) then 1 else 0) + CountSlow(ts[1..])
  }

  /** Each submitted request is in exactly one place. */
  ghost predicate Conserved(s: State) {
    forall id :: Copies(s, id) == if id in s.work then 1 else 0
  }

  /** The `work` pointer and the place of a request tell whether it has run. */
  ghost predicate Told(s: State) {
    s.ran <= s.work.Keys && forall id :: id in s.work ==> ToldOf(s, id)
  }

  ghost predicate ToldOf(s: State, id: nat)
    requires id in s.work
  {
    var w, ran := s.work[id], id in s.ran;
    (Work(id) in s.wq || id in s.slowPending ==> w.Function? && !ran)
    && (Working(id, true) in s.threads || Working(id, false) in s.threads ==> w.Function? && ran)
    && (s.cancelling == Some(id) ==> w.Cancelled? && !ran)
    && (id in s.loopQ || id in s.localQ ==> w == if ran then Null else Cancelled)
    && (Done(id, true) in s.done ==> !ran) && (Done(id, false) in s.done ==> ran)
  }

  /** The marker is queued once at most, and whenever slow work is pending. */
  ghost predicate Marked(s: State) {
    multiset(s.wq)[Marker] <= 1 && (s.slowPending != [] ==> Marker in s.wq)
  }

  /** Slow work holds no more than half of the threads, rounded up. */
  ghost predicate Throttled(s: State) {
    s.slowRunning == CountSlow(s.threads) <= Threshold(|s.threads|) && |s.threads| > 0
  }

  /** No wake-up is lost: while anything is queued, some worker is not asleep. */
  ghost predicate Awake(s: State) {
    CountsIdle(s) && (s.wq != [] ==> SomeAwake(s.threads))
  }

  ghost predicate Inv(s: State) {
    Conserved(s) && Told(s) && Marked(s) && Throttled(s) && Awake(s)
  }

  lemma {:induction false} Removed<T>(q: seq<T>, x: T, y: T)
    ensures multiset(Remove(q, x))[y] == multiset(q)[y] - if y == x && x in q then 1 else 0
    ensures y in Remove(q, x) ==> y in q
  {
    if q != [] {
      assert q == [q[0]] + q[1..];
      Removed(q[1..], x, y);
    }
  }

  lemma {:induction false} SlowUpdate(ts: seq<Thread>, t: nat, x: Thread)
    requires t < |ts|
    ensures CountSlow(ts[t := x]) == CountSlow(ts) - (if OnSlowWork(ts[t]) then 1 else 0) + if OnSlowWork(x) then 1 else 0
  {
    if t == 0 {
      assert ts[0 := x][1..] == ts[1..];
    } else {
      assert ts[t := x][1..] == ts[1..][t - 1 := x];
      SlowUpdate(ts[1..], t - 1, x);
    }
  }

  lemma PopFront<T>(q: seq<T>)
    requires q != []
    ensures multiset(q[1..]) == multiset(q) - multiset{q[0]} && forall x :: x in q[1..] ==> x in q
  {
    assert q == [q[0]] + q[1..];
  }

  /** Waking a thread or putting one to sleep moves no request. */
  lemma SameRequests(s: State, t: nat, x: Thread, id: nat)
    requires t < |s.threads| && !s.threads[t].Working? && !x.Working?
    ensures Copies(s.(threads := s.threads[t := x]), id) == Copies(s, id)
  {
  }

  lemma SignalMovesNothing(s: State, wakee: nat, id: nat)
    requires CanSignal(s, wakee)
    ensures Copies(Signal(s, wakee), id) == Copies(s, id) && Signal(s, wakee).work == s.work
  {
    if s.idle > 0 {
      SameRequests(s, wakee, Ready, id);
    }
  }

  lemma SubmitAddsOne(s: State, a: Action, id: nat)
    requires a.Submit? && Enabled(s, a)
    ensures Copies(Apply(s, a), id) == Copies(s, id) + if id == a.id then 1 else 0
  {
    hide Signal;
    var s1 := s.(work := s.work[a.id := Function]);
    if !a.slow {
      SignalMovesNothing(s1.(wq := s.wq + [Work(a.id)]), a.wakee, id);
    } else if Marker !in s.wq {
      SignalMovesNothing(s1.(slowPending := s.slowPending + [a.id], wq := s.wq + [Marker]), a.wakee, id);
    }
  }

  lemma SubmitWork(s: State, a: Action)
    requires a.Submit? && Enabled(s, a)
    ensures Apply(s, a).work == s.work[a.id := Function]
  {
  }

  lemma SubmitConserves(s: State, a: Action)
    requires a.Submit? && Enabled(s, a) && Conserved(s)
    ensures Conserved(Apply(s, a))
  {
    hide Apply, Copies;
    SubmitWork(s, a);
    forall id ensures Copies(Apply(s, a), id) == if id in Apply(s, a).work then 1 else 0 {
      SubmitAddsOne(s, a, id);
    }
  }

  lemma TakeConserves(s: State, a: Action)
    requires a.Take? && !MustWait(s) && s.wq[0].Work? && Enabled(s, a) && Conserved(s)
    ensures Conserved(Apply(s, a))
  {
    hide Apply, Copies, Threshold, Signal, StartSlow, MustWait;
    TakeIs(s, a);
    CanTake(s);
    forall id ensures Copies(Apply(s, a), id) == if id in Apply(s, a).work then 1 else 0 {
      assert Copies(s, id) == if id in s.work then 1 else 0;
      TakenCopies(s, a.t, id);
    }
  }

  /** A request that a worker takes passes from the queue to it. */
  lemma TakenCopies(s: State, t: nat, id: nat)
    requires s.wq != [] && s.wq[0].Work? && t < |s.threads| && s.threads[t].Ready?
    ensures Copies(s.(wq := s.wq[1..], threads := s.threads[t := Working(s.wq[0].id, false)], ran := s.ran + {s.wq[0].id}), id) == Copies(s, id)
  {
    PopFront(s.wq);
  }

  /** A worker that starts slow work moves one request from the pending queue to itself. */
  lemma StartSlowConserves(s: State, t: nat, wq: seq<Item>, id: nat)
    requires t < |s.threads| && s.threads[t].Ready? && s.slowPending != [] && multiset(wq)[Work(id)] == multiset(s.wq)[Work(id)]
    ensures Copies(StartSlow(s, t).(wq := wq), id) == Copies(s, id)
  {
    PopFront(s.slowPending);
  }

  /** The marker is no request. */
  lemma MarkerMoves(s: State, wq: seq<Item>, id: nat)
    requires multiset(wq)[Work(id)] == multiset(s.wq)[Work(id)]
    ensures Copies(s.(wq := wq), id) == Copies(s, id)
  {
  }

  lemma SameButMarker(wq: seq<Item>, id: nat)
    requires wq != [] && wq[0].Marker?
    ensures multiset(wq[1..])[Work(id)] == multiset(wq)[Work(id)] == multiset(wq[1..] + [Marker])[Work(id)]
  {
    PopFront(wq);
  }

  lemma StartSlowKeeps(s: State, t: nat, wakee: nat)
    requires t < |s.threads| && s.threads[t].Ready? && s.slowPending != [] && CanSignal(s, wakee)
    ensures StartSlow(s, t).work == s.work && CanSignal(StartSlow(s, t), wakee)
  {
  }

  lemma TakeSlowMoves(s: State, a: Action, id: nat)
    requires a.Take? && !MustWait(s) && s.wq[0].Marker? && Enabled(s, a)
    ensures Copies(Apply(s, a), id) == Copies(s, id) && Apply(s, a).work == s.work
  {
    hide Apply, Copies, Signal, StartSlow, Threshold;
    TakeIs(s, a);
    SameButMarker(s.wq, id);
    var rest := s.wq[1..];
    if s.slowRunning >= Threshold(|s.threads|) {
      MarkerMoves(s, rest + [Marker], id);
    } else if s.slowPending == [] {
      MarkerMoves(s, rest, id);
    } else if s.slowPending[1..] == [] {
      StartSlowConserves(s, a.t, rest, id);
      StartSlowKeeps(s, a.t, a.wakee);
    } else {
      StartSlowConserves(s, a.t, rest + [Marker], id);
      StartSlowKeeps(s, a.t, a.wakee);
      SignalMovesNothing(StartSlow(s, a.t).(wq := rest + [Marker]), a.wakee, id);
    }
  }

  lemma TakeSlowConserves(s: State, a: Action)
    requires a.Take? && !MustWait(s) && s.wq[0].Marker? && Enabled(s, a) && Conserved(s)
    ensures Conserved(Apply(s, a))
  {
    hide Apply, Copies;
    forall id ensures Copies(Apply(s, a), id) == if id in Apply(s, a).work then 1 else 0 {
      TakeSlowMoves(s, a, id);
    }
  }

  lemma WaitConserves(s: State, a: Action)
    requires ((a.Take? && MustWait(s)) || a.Wake? || a.Relock?) && Enabled(s, a) && Conserved(s)
    ensures Conserved(Apply(s, a))
  {
    forall id ensures Copies(Apply(s, a), id) == if id in Apply(s, a).work then 1 else 0 {
      assert Copies(s, id) == if id in s.work then 1 else 0;
      SameRequests(s, a.t, if a.Take? then Waiting else Ready, id);
    }
  }

  lemma LoopConserves(s: State, a: Action)
    requires (a.PostCancelled? || a.Collect?) && Enabled(s, a) && Conserved(s)
    ensures Conserved(Apply(s, a))
  {
    forall id ensures Copies(Apply(s, a), id) == if id in Apply(s, a).work then 1 else 0 {
      assert Copies(s, id) == if id in s.work then 1 else 0;
    }
  }

  lemma FinishConserves(s: State, a: Action)
    requires a.Finish? && Enabled(s, a) && Conserved(s)
    ensures Conserved(Apply(s, a))
  {
    forall id ensures Copies(Apply(s, a), id) == if id in Apply(s, a).work then 1 else 0 {
      assert Copies(s, id) == if id in s.work then 1 else 0;
    }
  }

  lemma DeliverConserves(s: State, a: Action)
    requires a.Deliver? && Enabled(s, a) && Conserved(s)
    ensures Conserved(Apply(s, a))
  {
    PopFront(s.localQ);
    forall id ensures Copies(Apply(s, a), id) == if id in Apply(s, a).work then 1 else 0 {
      assert Copies(s, id) == if id in s.work then 1 else 0;
    }
  }

  lemma CancelApplied(s: State, a: Action)
    requires a.Cancel? && Enabled(s, a)
    ensures Apply(s, a) ==
      if InQueue(s, a.id) && !s.work[a.id].Null? then
        s.(wq := Remove(s.wq, Work(a.id)), slowPending := Remove(s.slowPending, a.id), loopQ := Remove(s.loopQ, a.id),
           localQ := Remove(s.localQ, a.id), cancelling := Some(a.id), work := s.work[a.id := Cancelled])
      else s
  {
    hide Remove, InQueue;
  }

  /** How often a request is in one of the queues. */
  ghost function Queued(s: State, id: nat): nat {
    multiset(s.wq)[Work(id)] + multiset(s.slowPending)[id] + multiset(s.loopQ)[id] + multiset(s.localQ)[id]
  }

  lemma OneQueued(s: State, id: nat)
    requires InQueue(s, id) && Copies(s, id) == 1
    ensures Queued(s, id) == 1 && s.cancelling != Some(id)
  {
    assert Queued(s, id) >= 1;
  }

  lemma RemovedFromQueues(s: State, a: Action, id: nat)
    requires a.Cancel? && Enabled(s, a) && InQueue(s, a.id) && Queued(s, a.id) == 1
    ensures
      var s' := s.(wq := Remove(s.wq, Work(a.id)), slowPending := Remove(s.slowPending, a.id), loopQ := Remove(s.loopQ, a.id), localQ := Remove(s.localQ, a.id));
      Queued(s', id) == Queued(s, id) - if id == a.id then 1 else 0
  {
    hide Remove;
    Removed(s.wq, Work(a.id), Work(id));
    Removed(s.slowPending, a.id, id);
    Removed(s.loopQ, a.id, id);
    Removed(s.localQ, a.id, id);
  }

  /** A cancelled request leaves its queue, and no other request moves. */
  lemma CancelMoves(s: State, a: Action, id: nat)
    requires a.Cancel? && Enabled(s, a) && Copies(s, a.id) == 1
    ensures Copies(Apply(s, a), id) == Copies(s, id) && Apply(s, a).work.Keys == s.work.Keys
  {
    hide Apply, InQueue, Remove;
    CancelApplied(s, a);
    if InQueue(s, a.id) && !s.work[a.id].Null? {
      OneQueued(s, a.id);
      RemovedFromQueues(s, a, id);
    }
  }

  lemma CancelConserves(s: State, a: Action)
    requires a.Cancel? && Enabled(s, a) && Conserved(s)
    ensures Conserved(Apply(s, a))
  {
    hide Apply, Copies;
    assert Copies(s, a.id) == 1;
    forall id ensures Copies(Apply(s, a), id) == if id in Apply(s, a).work then 1 else 0 {
      CancelMoves(s, a, id);
    }
  }

  lemma OnePlace(s: State, id: nat)
    requires Conserved(s)
    ensures Copies(s, id) == if id in s.work then 1 else 0
  {
  }

  lemma SubmitTellsOf(s: State, a: Action, id: nat)
    requires a.Submit? && Enabled(s, a) && Copies(s, id) == (if id in s.work then 1 else 0) && (id in s.work ==> ToldOf(s, id)) && s.ran <= s.work.Keys
    ensures Apply(s, a).work == s.work[a.id := Function] && Apply(s, a).ran == s.ran
    ensures id in Apply(s, a).work ==> ToldOf(Apply(s, a), id)
  {
  }

  lemma SubmitTells(s: State, a: Action)
    requires a.Submit? && Enabled(s, a) && Conserved(s) && Told(s)
    ensures Told(Apply(s, a))
  {
    hide Apply, Copies, ToldOf;
    SubmitTellsOf(s, a, a.id) by { OnePlace(s, a.id); }
    forall id | id in Apply(s, a).work ensures ToldOf(Apply(s, a), id) {
      OnePlace(s, id);
      SubmitTellsOf(s, a, id);
    }
  }

  lemma TakeTells(s: State, a: Action)
    requires a.Take? && !MustWait(s) && s.wq[0].Work? && Enabled(s, a) && Conserved(s) && Told(s)
    ensures Told(Apply(s, a))
  {
    PopFront(s.wq);
    assert s.wq[0] in s.wq && Copies(s, s.wq[0].id) > 0;
    forall id | id in Apply(s, a).work ensures ToldOf(Apply(s, a), id) {
      assert Copies(s, id) == if id in s.work then 1 else 0;
      assert id in s.work ==> ToldOf(s, id);
    }
  }

  lemma StartSlowTells(s: State, t: nat, wq: seq<Item>)
    requires Conserved(s) && Told(s) && t < |s.threads| && s.threads[t].Ready? && s.slowPending != []
    requires forall id :: Work(id) in wq ==> Work(id) in s.wq
    ensures Told(StartSlow(s, t).(wq := wq))
  {
    PopFront(s.slowPending);
    assert s.slowPending[0] in s.slowPending && Copies(s, s.slowPending[0]) > 0;
    var s' := StartSlow(s, t).(wq := wq);
    forall id | id in s'.work ensures ToldOf(s', id) {
      assert Copies(s, id) == 1 && ToldOf(s, id);
    }
  }

  lemma SignalTells(s: State, wakee: nat)
    requires CanSignal(s, wakee) && Told(s)
    ensures Told(Signal(s, wakee))
  {
    forall id | id in s.work ensures ToldOf(Signal(s, wakee), id) {
      assert ToldOf(s, id);
    }
  }

  lemma TakeSlowTells(s: State, a: Action)
    requires a.Take? && !MustWait(s) && s.wq[0].Marker? && Enabled(s, a) && Conserved(s) && Told(s)
    ensures Told(Apply(s, a))
  {
    PopFront(s.wq);
    var rest := s.wq[1..];
    if s.slowRunning < Threshold(|s.threads|) && s.slowPending != [] {
      var wq := if s.slowPending[1..] == [] then rest else rest + [Marker];
      StartSlowTells(s, a.t, wq);
      if s.slowPending[1..] != [] {
        SignalTells(StartSlow(s, a.t).(wq := wq), a.wakee);
      }
    } else {
      forall id | id in s.work ensures ToldOf(Apply(s, a), id) {
        assert ToldOf(s, id);
      }
    }
  }

  lemma WaitTells(s: State, a: Action)
    requires ((a.Take? && MustWait(s)) || a.Wake? || a.Relock? || a.PostCancelled? || a.Collect?) && Enabled(s, a) && Conserved(s) && Told(s)
    ensures Told(Apply(s, a))
  {
    hide Copies, ToldOf, CanSignal;
    assert Apply(s, a).work == s.work && Apply(s, a).ran == s.ran;
    forall id | id in Apply(s, a).work ensures ToldOf(Apply(s, a), id) {
      assert ToldOf(s, id);
      WaitTellsOf(s, a, id);
    }
  }

  lemma WaitTellsOf(s: State, a: Action, id: nat)
    requires ((a.Take? && MustWait(s)) || a.Wake? || a.Relock? || a.PostCancelled? || a.Collect?) && Enabled(s, a)
    requires id in s.work && ToldOf(s, id)
    ensures id in Apply(s, a).work && ToldOf(Apply(s, a), id)
  {
    hide CanSignal, Threshold, MustWait;
    assert Apply(s, a).work == s.work && Apply(s, a).ran == s.ran;
  }

  lemma FinishTellsOf(s: State, a: Action, id: nat)
    requires a.Finish? && Enabled(s, a) && id in s.work && ToldOf(s, id) && Copies(s, id) == 1 && Copies(Apply(s, a), id) == 1
    ensures ToldOf(Apply(s, a), id)
  {
    assert s.threads[a.t] in s.threads;
  }

  lemma FinishTells(s: State, a: Action)
    requires a.Finish? && Enabled(s, a) && Conserved(s) && Told(s)
    ensures Told(Apply(s, a))
  {
    hide Copies, ToldOf;
    FinishConserves(s, a);
    forall id | id in Apply(s, a).work ensures ToldOf(Apply(s, a), id) {
      OnePlace(s, id);
      OnePlace(Apply(s, a), id);
      FinishTellsOf(s, a, id);
    }
  }

  lemma DeliverTells(s: State, a: Action)
    requires a.Deliver? && Enabled(s, a) && Conserved(s) && Told(s)
    ensures Told(Apply(s, a))
  {
    PopFront(s.localQ);
    assert s.localQ[0] in s.localQ;
    forall id | id in Apply(s, a).work ensures ToldOf(Apply(s, a), id) {
      assert Copies(s, id) == if id in s.work then 1 else 0;
      assert id in s.work ==> ToldOf(s, id);
    }
  }

  lemma CancelTells(s: State, a: Action)
    requires a.Cancel? && Enabled(s, a) && Conserved(s) && Told(s)
    ensures Told(Apply(s, a))
  {
    forall id | id in Apply(s, a).work ensures ToldOf(Apply(s, a), id) {
      assert Copies(s, id) == if id in s.work then 1 else 0;
      assert id in s.work ==> ToldOf(s, id);
      Removed(s.wq, Work(a.id), Work(id));
      Removed(s.slowPending, a.id, id);
      Removed(s.loopQ, a.id, id);
      Removed(s.localQ, a.id, id);
    }
  }

  lemma StepMarks(s: State, a: Action)
    requires Enabled(s, a) && Marked(s)
    ensures Marked(Apply(s, a))
  {
    if a.Take? {
      TakeMarks(s, a);
    } else if a.Cancel? {
      CancelMarks(s, a);
    }
  }

  lemma TakeMarks(s: State, a: Action)
    requires a.Take? && Enabled(s, a) && Marked(s)
    ensures Marked(Apply(s, a))
  {
    hide Threshold, Apply, MustWait, Enabled;
    TakeLeaves(s, a);
    if !MustWait(s) {
      PopFront(s.wq);
      if s.wq[0].Marker? {
        MarkerLast(s.wq[1..]);
      }
    }
  }

  /** The queues behind it. */
  lemma TakeLeaves(s: State, a: Action)
    requires a.Take? && Enabled(s, a)
    ensures MustWait(s) ==> Apply(s, a).wq == s.wq && Apply(s, a).slowPending == s.slowPending
    ensures !MustWait(s) ==> s.wq != []
    ensures !MustWait(s) && s.wq[0].Work? ==> Apply(s, a).wq == s.wq[1..] && Apply(s, a).slowPending == s.slowPending
    ensures !MustWait(s) && s.wq[0].Marker? ==>
      || (Apply(s, a).wq == s.wq[1..] && Apply(s, a).slowPending == [])
      || Apply(s, a).wq == s.wq[1..] + [Marker]
  {
    hide Threshold, MustWait, CanSignal;
    TakeIs(s, a);
    CanTake(s);
  }

  lemma CanTake(s: State)
    ensures !MustWait(s) ==> s.wq != []
  {
  }

  lemma MarkerLast(rest: seq<Item>)
    ensures multiset(rest + [Marker])[Marker] == multiset(rest)[Marker] + 1 && Marker in rest + [Marker]
  {
    assert (rest + [Marker])[|rest|] == Marker;
  }

  lemma CancelMarks(s: State, a: Action)
    requires a.Cancel? && Enabled(s, a) && Marked(s)
    ensures Marked(Apply(s, a))
  {
    Removed(s.wq, Work(a.id), Marker);
    if Remove(s.slowPending, a.id) != [] {
      Removed(s.slowPending, a.id, Remove(s.slowPending, a.id)[0]);
    }
  }

  lemma {:induction false} SlowExists(ts: seq<Thread>) returns (t: nat)
    requires CountSlow(ts) > 0
    ensures t < |ts| && OnSlowWork(ts[t])
  {
    if OnSlowWork(ts[0]) {
      t := 0;
    } else {
      t := SlowExists(ts[1..]);
      t := t + 1;
    }
  }

  lemma StepThrottles(s: State, a: Action)
    requires Enabled(s, a) && Throttled(s)
    ensures Throttled(Apply(s, a))
  {
    match a
    case Submit(_, _, w) =>
      if s.idle > 0 { SlowUpdate(s.threads, w, Ready); }
    case Take(t, w) => TakeThrottles(s, a);
    case Wake(t) => SlowUpdate(s.threads, t, Ready);
    case Finish(t) => SlowUpdate(s.threads, t, Returning(s.threads[t].slow));
    case Relock(t) => SlowUpdate(s.threads, t, Ready);
    case _ =>
  }

  lemma TakeThrottles(s: State, a: Action)
    requires a.Take? && Enabled(s, a) && Throttled(s)
    ensures Throttled(Apply(s, a))
  {
    if MustWait(s) {
      SlowUpdate(s.threads, a.t, Waiting);
    } else if s.wq[0].Work? {
      SlowUpdate(s.threads, a.t, Working(s.wq[0].id, false));
    } else if s.slowPending != [] {
      var started := Working(s.slowPending[0], true);
      SlowUpdate(s.threads, a.t, started);
      if s.idle > 0 { SlowUpdate(s.threads[a.t := started], a.wakee, Ready); }
    }
  }

  lemma WaitingUpdate(ts: seq<Thread>, t: nat, x: Thread)
    requires t < |ts|
    ensures multiset(ts[t := x])[Waiting] == multiset(ts)[Waiting] - (if ts[t].Waiting? then 1 else 0) + if x.Waiting? then 1 else 0
  {
  }

  ghost predicate CountsIdle(s: State) {
    s.idle == multiset(s.threads)[Waiting]
  }

  lemma SignalCountsIdle(s: State, wakee: nat)
    requires CanSignal(s, wakee) && CountsIdle(s)
    ensures CountsIdle(Signal(s, wakee))
  {
    if s.idle > 0 {
      WaitingUpdate(s.threads, wakee, Ready);
    }
  }

  lemma TakeCountsIdle(s: State, a: Action)
    requires a.Take? && Enabled(s, a) && CountsIdle(s)
    ensures CountsIdle(Apply(s, a))
  {
    hide Apply, Signal, Threshold, MustWait;
    TakeIs(s, a);
    if MustWait(s) {
      WaitingUpdate(s.threads, a.t, Waiting);
    } else {
      CanTake(s);
      if s.wq[0].Work? {
        WaitingUpdate(s.threads, a.t, Working(s.wq[0].id, false));
      } else if s.slowPending != [] {
        WaitingUpdate(s.threads, a.t, Working(s.slowPending[0], true));
        if s.slowPending[1..] != [] && s.slowRunning < Threshold(|s.threads|) {
          SignalCountsIdle(StartSlow(s, a.t).(wq := s.wq[1..] + [Marker]), a.wakee);
        }
      }
    }
  }

  lemma StepCountsIdle(s: State, a: Action)
    requires Enabled(s, a) && CountsIdle(s)
    ensures CountsIdle(Apply(s, a))
  {
    match a
    case Submit(id, slow, wakee) => SubmitCountsIdle(s, a);
    case Take(_, _) => TakeCountsIdle(s, a);
    case Wake(t) => WaitingUpdate(s.threads, t, Ready);
    case Finish(t) => WaitingUpdate(s.threads, t, Returning(s.threads[t].slow));
    case Relock(t) => WaitingUpdate(s.threads, t, Ready);
    case _ =>
  }

  lemma SubmitCountsIdle(s: State, a: Action)
    requires a.Submit? && Enabled(s, a) && CountsIdle(s)
    ensures CountsIdle(Apply(s, a))
  {
    if s.idle > 0 {
      WaitingUpdate(s.threads, a.wakee, Ready);
    }
  }

  /** Some worker is not asleep. */
  ghost predicate SomeAwake(ts: seq<Thread>) {
    exists t :: 0 <= t < |ts| && !ts[t].Waiting?
  }

  lemma AwakeUpdate(ts: seq<Thread>, t: nat, x: Thread)
    requires t < |ts| && !x.Waiting?
    ensures SomeAwake(ts[t := x])
  {
    assert !ts[t := x][t].Waiting?;
  }

  lemma NoneIdle(s: State)
    requires CountsIdle(s) && s.idle == 0 && |s.threads| > 0
    ensures SomeAwake(s.threads)
  {
    assert s.threads[0] in s.threads;
  }

  /** Whoever queues an item wakes a worker if one sleeps. */
  lemma SubmitStaysAwake(s: State, a: Action)
    requires a.Submit? && Enabled(s, a) && Throttled(s) && Awake(s)
    ensures SomeAwake(Apply(s, a).threads)
  {
    if s.wq != [] && s.idle == 0 {
    } else if s.idle == 0 {
      NoneIdle(s);
    } else {
      AwakeUpdate(s.threads, a.wakee, Ready);
    }
  }

  lemma TakeStaysAwake(s: State, a: Action)
    requires a.Take? && Enabled(s, a) && Throttled(s) && Awake(s) && Apply(s, a).wq != []
    ensures SomeAwake(Apply(s, a).threads)
  {
    hide Apply, Threshold;
    TakeIs(s, a);
    if MustWait(s) {
      var t := SlowExists(s.threads) by { LimitIsPositive(s); }
      assert !s.threads[a.t := Waiting][t].Waiting?;
    } else {
      var s' := Apply(s, a);
      assert !s.threads[a.t].Waiting? && !s'.threads[a.t].Waiting?;
    }
  }

  /** A worker only waits beside the marker while slow work is running. */
  lemma LimitIsPositive(s: State)
    requires Throttled(s) && MustWait(s) && s.wq != []
    ensures CountSlow(s.threads) > 0
  {
  }

  lemma CancelStaysAwake(s: State, a: Action)
    requires a.Cancel? && Enabled(s, a) && Awake(s) && Apply(s, a).wq != []
    ensures SomeAwake(Apply(s, a).threads)
  {
    assert s.wq != [];
  }

  lemma StepStaysAwake(s: State, a: Action)
    requires Enabled(s, a) && Throttled(s) && Awake(s)
    ensures Awake(Apply(s, a))
  {
    StepCountsIdle(s, a);
    if Apply(s, a).wq != [] {
      match a
      case Submit(_, _, _) => SubmitStaysAwake(s, a);
      case Take(_, _) => TakeStaysAwake(s, a);
      case Cancel(_) => CancelStaysAwake(s, a);
      case Wake(t) => AwakeUpdate(s.threads, t, Ready);
      case Finish(t) => AwakeUpdate(s.threads, t, Returning(s.threads[t].slow));
      case Relock(t) => AwakeUpdate(s.threads, t, Ready);
      case _ =>
    }
  }

  lemma StepKeepsInv(s: State, a: Action)
    requires Enabled(s, a) && Inv(s)
    ensures Inv(Apply(s, a))
  {
    StepMarks(s, a);
    StepThrottles(s, a);
    StepStaysAwake(s, a);
    match a
    case Submit(_, _, _) => SubmitConserves(s, a); SubmitTells(s, a);
    case Take(_, _) =>
      if MustWait(s) { WaitConserves(s, a); WaitTells(s, a); }
      else if s.wq[0].Work? { TakeConserves(s, a); TakeTells(s, a); }
      else { TakeSlowConserves(s, a); TakeSlowTells(s, a); }
    case Wake(_) => WaitConserves(s, a); WaitTells(s, a);
    case Finish(_) => FinishConserves(s, a); FinishTells(s, a);
    case Relock(_) => WaitConserves(s, a); WaitTells(s, a);
    case Cancel(_) => CancelConserves(s, a); CancelTells(s, a);
    case PostCancelled => LoopConserves(s, a); WaitTells(s, a);
    case Collect => LoopConserves(s, a); WaitTells(s, a);
    case Deliver => DeliverConserves(s, a); DeliverTells(s, a);
  }

  // ----- whole runs -----

  /** `s` after the actions of `run`, one enabled step at a time. */
  ghost predicate Reaches(s0: State, run: seq<Action>, s: State)
    decreases |run|
  {
    if run == [] then s == s0
    else Enabled(s0, run[0]) && Reaches(Apply(s0, run[0]), run[1..], s)
  }

  lemma {:induction false} RunKeepsInv(s0: State, run: seq<Action>, s: State)
    requires Inv(s0) && Reaches(s0, run, s)
    ensures Inv(s)
    decreases |run|
  {
    if run != [] {
      StepKeepsInv(s0, run[0]);
      RunKeepsInv(Apply(s0, run[0]), run[1..], s);
    }
  }

  lemma InitInv(nthreads: nat)
    requires nthreads > 0
    ensures Inv(Init(nthreads))
  {
    var s := Init(nthreads);
    assert forall t: Thread :: !t.Ready? ==> t !in s.threads && multiset(s.threads)[t] == 0;
    NoSlow(s.threads);
  }

  lemma {:induction false} NoSlow(ts: seq<Thread>)
    requires forall t :: t in ts ==> !OnSlowWork(t)
    ensures CountSlow(ts) == 0
  {
    if ts != [] {
      NoSlow(ts[1..]);
    }
  }

  /** In every run a request is delivered at most once, with the cancelled status exactly
      when its work function never ran; slow work never takes more than its share. */
  lemma Delivery(nthreads: nat, run: seq<Action>, s: State)
    requires nthreads > 0 && Reaches(Init(nthreads), run, s)
    ensures forall i, j :: 0 <= i < j < |s.done| ==> s.done[i].id != s.done[j].id
    ensures forall d :: d in s.done ==> d.id in s.work && (d.cancelled <==> d.id !in s.ran)
    ensures 2 * CountSlow(s.threads) <= |s.threads| + 1
    ensures s.slowPending != [] ==> Marker in s.wq
  {
    InitInv(nthreads);
    RunKeepsInv(Init(nthreads), run, s);
    forall d | d in s.done ensures d.id in s.work && (d.cancelled <==> d.id !in s.ran) {
      assert multiset(s.done)[d] > 0 && d == Done(d.id, d.cancelled);
      assert Copies(s, d.id) > 0;
      assert ToldOf(s, d.id);
    }
    forall i, j | 0 <= i < j < |s.done| ensures s.done[i].id != s.done[j].id {
      TwiceDone(s, i, j);
    }
  }

  /** ... and gets all of it: a worker that comes upon the marker starts the slow request that
      has waited longest exactly if slow work then still has no more than its share. */
  lemma SlowGetsItsShare(s: State, a: Action)
    requires Inv(s) && a.Take? && Enabled(s, a) && s.wq != [] && s.wq[0] == Marker && s.slowPending != []
    ensures 2 * (CountSlow(s.threads) + 1) <= |s.threads| + 1
       <==> OnSlowWork(Apply(s, a).threads[a.t]) && Apply(s, a).ran == s.ran + {s.slowPending[0]}
    ensures !OnSlowWork(Apply(s, a).threads[a.t]) ==> Apply(s, a).ran == s.ran && Apply(s, a).slowPending == s.slowPending
  {
    hide Conserved, Told, Marked, Awake, CountSlow;
  }

  lemma TwiceDone(s: State, i: nat, j: nat)
    requires Conserved(s) && i < j < |s.done|
    ensures s.done[i].id != s.done[j].id
  {
    var di, dj := s.done[i], s.done[j];
    assert s.done == s.done[..j] + [dj] + s.done[j + 1..];
    assert di in s.done[..j] && multiset(s.done[..j])[di] > 0;
    assert di == Done(di.id, di.cancelled) && dj == Done(dj.id, dj.cancelled);
    assert multiset(s.done) == multiset(s.done[..j]) + multiset{dj} + multiset(s.done[j + 1..]);
    assert Copies(s, di.id) <= 1;
  }

  /** Nothing is ever stuck: while a request is undelivered, some worker is awake or the
      event loop has something to do. So once the pool is quiet, every request has been
      delivered. */
  lemma QuietMeansDelivered(nthreads: nat, run: seq<Action>, s: State)
    requires nthreads > 0 && Reaches(Init(nthreads), run, s)
    requires forall t :: 0 <= t < |s.threads| ==> s.threads[t].Waiting?
    requires s.loopQ == [] && s.localQ == [] && s.cancelling.None?
    ensures forall id :: id in s.work ==> exists d :: d in s.done && d.id == id
  {
    InitInv(nthreads);
    RunKeepsInv(Init(nthreads), run, s);
    forall id | id in s.work ensures exists d :: d in s.done && d.id == id {
      assert Copies(s, id) == 1;
      assert Working(id, true) !in s.threads && Working(id, false) !in s.threads;
      assert Done(id, true) in s.done || Done(id, false) in s.done;
    }
  }

  /** The guards Enabled adds only to be well defined never exclude a step. */
  lemma GuardsHold(s: State, t: nat)
    requires Inv(s)
    ensures t < |s.threads| && s.threads[t].Working? ==> Enabled(s, Finish(t))
    ensures t < |s.threads| && s.threads[t].Returning? ==> Enabled(s, Relock(t))
    ensures t < |s.threads| && s.threads[t].Waiting? ==> Enabled(s, Wake(t))
    ensures s.cancelling.None? && s.localQ != [] ==> Enabled(s, Deliver)
    ensures t < |s.threads| && s.threads[t].Ready? ==> exists w :: Enabled(s, Take(t, w))
  {
    if t < |s.threads| {
      assert s.threads[t] in s.threads;
      if s.threads[t].Working? {
        assert Copies(s, s.threads[t].id) > 0;
      }
      SlowUpdate(s.threads, t, Ready);
      if s.idle > 0 {
        var w :| 0 <= w < |s.threads| && s.threads[w].Waiting?;
        assert s.threads[t].Ready? ==> Enabled(s, Take(t, w));
      } else {
        assert s.threads[t].Ready? ==> Enabled(s, Take(t, 0));
      }
    }
    if s.localQ != [] {
      assert s.localQ[0] in s.localQ && Copies(s, s.localQ[0]) > 0;
    }
  }

  // ----- the program -----

  const UV_EBUSY: int := -16

  /** What cancelling leaves once the request is posted to the loop. */
  lemma CancelIs(s: State, id: nat)
    requires Enabled(s, Action.Cancel(id))
    ensures id in s.work && s.cancelling.None?
    ensures InQueue(s, id) && !s.work[id].Null? ==>
      && Enabled(Apply(s, Action.Cancel(id)), PostCancelled)
      && Apply(Apply(s, Action.Cancel(id)), PostCancelled) ==
           s.(wq := Remove(s.wq, Work(id)), slowPending := Remove(s.slowPending, id), loopQ := Remove(s.loopQ, id) + [id],
              localQ := Remove(s.localQ, id), work := s.work[id := Cancelled])
  {
    hide Remove;
  }

  lemma StartsFromRest(s: State, t: nat)
    requires t < |s.threads| && s.threads[t].Ready? && s.slowPending != [] && s.wq != []
    ensures StartSlow(s.(wq := s.wq[1..]), t) == StartSlow(s, t).(wq := s.wq[1..])
  {
  }

  /** The pool's globals, one event loop, and the program counters of its threads. Each
      method is one critical section and takes the step it is named after. */
  class Pool {
    var wq: seq<Item>
    var slowIoPendingWq: seq<nat>
    var slowIoWorkRunning: nat
    var idleThreads: nat
    var threads: seq<Thread>
    var loopWq: seq<nat>
    var localWq: seq<nat>
    var cancelling: Option<nat>
    var work: map<nat, WorkField>
    var done: seq<Done>
    ghost var ran: set<nat>

    ghost function View(): State
      reads this
    {
      State(wq, slowIoPendingWq, slowIoWorkRunning, idleThreads, threads, loopWq, localWq, cancelling, work, ran, done)
    }

    constructor (nthreads: nat)
      requires nthreads > 0
      ensures View() == Init(nthreads)
    {
      wq, slowIoPendingWq, slowIoWorkRunning, idleThreads := [], [], 0, 0;
      threads := seq(nthreads, _ => Ready);
      loopWq, localWq, cancelling, work, done, ran := [], [], None, map[], [], {};
    }

    method CondSignal(wakee: nat)
      requires CanSignal(View(), wakee) && idleThreads > 0
      modifies this`threads, this`idleThreads
      ensures View() == Signal(old(View()), wakee)
    {
      threads := threads[wakee := Ready];
      idleThreads := idleThreads - 1;
    }

    method Submit(id: nat, slow: bool, wakee: nat)
      requires Enabled(View(), Action.Submit(id, slow, wakee))
      modifies this
      ensures View() == Apply(old(View()), Action.Submit(id, slow, wakee))
    {
      work := work[id := Function];
      var q := Work(id);
      if slow {
        slowIoPendingWq := slowIoPendingWq + [id];
        if Marker in wq {
          return;
        }
        q := Marker;
      }
      wq := wq + [q];
      if idleThreads > 0 {
        CondSignal(wakee);
      }
    }

    /** A worker starts the first of the slow work; while more is pending the marker is queued
        again, and another worker woken for it. */
    method StartSlowWork(t: nat, wakee: nat)
      requires t < |threads| && threads[t].Ready? && slowIoPendingWq != [] && CanSignal(View(), wakee)
      modifies this
      ensures View() == old(
        if slowIoPendingWq[1..] == [] then StartSlow(View(), t) else Signal(StartSlow(View(), t).(wq := wq + [Marker]), wakee))
    {
      ghost var s := View();
      slowIoWorkRunning := slowIoWorkRunning + 1;
      var id := slowIoPendingWq[0];
      slowIoPendingWq := slowIoPendingWq[1..];
      threads, ran := threads[t := Working(id, true)], ran + {id};
      assert View() == StartSlow(s, t);
      if slowIoPendingWq != [] {
        wq := wq + [Marker];
        if idleThreads > 0 {
          CondSignal(wakee);
        }
      }
    }

    /** From the top of the worker's loop to the next wait, continue or unlock. */
    method Take(t: nat, wakee: nat)
      requires Enabled(View(), Action.Take(t, wakee))
      modifies this
      ensures View() == Apply(old(View()), Action.Take(t, wakee))
    {
      hide Apply, Signal, StartSlow;
      TakeIs(View(), Action.Take(t, wakee));
      var threshold := Threshold(|threads|);
      if wq == [] || (wq[0] == Marker && |wq| == 1 && slowIoWorkRunning >= threshold) {
        idleThreads := idleThreads + 1;
        threads := threads[t := Waiting];
        return;
      }
      ghost var s := View();
      var q := wq[0];
      wq := wq[1..];
      if q == Marker {
        if slowIoWorkRunning >= threshold {
          wq := wq + [q];
          return;
        }
        if slowIoPendingWq == [] {
          return;
        }
        StartsFromRest(s, t);
        StartSlowWork(t, wakee);
      } else {
        threads, ran := threads[t := Working(q.id, false)], ran + {q.id};
      }
    }

    method Finish(t: nat)
      requires Enabled(View(), Action.Finish(t))
      modifies this
      ensures View() == Apply(old(View()), Action.Finish(t))
    {
      var id := threads[t].id;
      work := work[id := Null];
      loopWq := loopWq + [id];
      threads := threads[t := Returning(threads[t].slow)];
    }

    method Relock(t: nat)
      requires Enabled(View(), Action.Relock(t))
      modifies this
      ensures View() == Apply(old(View()), Action.Relock(t))
    {
      if threads[t].slow {
        slowIoWorkRunning := slowIoWorkRunning - 1;
      }
      threads := threads[t := Ready];
    }

    /** uv__work_cancel, both critical sections; CancelSucceeds says when it succeeds. */
    method Cancel(id: nat) returns (r: int)
      requires Enabled(View(), Action.Cancel(id))
      modifies this
      ensures r == if old(InQueue(View(), id) && !work[id].Null?) then 0 else UV_EBUSY
      ensures r == 0 ==> View() == Apply(Apply(old(View()), Action.Cancel(id)), PostCancelled)
      ensures r != 0 ==> View() == old(View())
    {
      hide Remove, CanSignal, Enabled, Apply;
      ghost var s := View();
      CancelIs(s, id);
      var cancelled := (Work(id) in wq || id in slowIoPendingWq || id in loopWq || id in localWq) && work[id] != Null;
      if cancelled {
        wq, slowIoPendingWq := Remove(wq, Work(id)), Remove(slowIoPendingWq, id);
        loopWq, localWq := Remove(loopWq, id), Remove(localWq, id);
      }
      if !cancelled {
        return UV_EBUSY;
      }
      work := work[id := Cancelled];
      cancelling := Some(id);

      loopWq := loopWq + [id];
      cancelling := None;
      return 0;
    }

    /** uv__work_done: takes the whole queue, then delivers front to back. */
    method WorkDone()
      requires localWq == [] && cancelling == None && forall id :: id in loopWq ==> id in work
      modifies this
      ensures loopWq == [] && localWq == [] && work == old(work) && ran == old(ran)
      ensures |done| == |old(done)| + |old(loopWq)| && done[..|old(done)|] == old(done)
      ensures forall i :: 0 <= i < |old(loopWq)| ==>
                done[|old(done)| + i] == Done(old(loopWq)[i], work[old(loopWq)[i]] == Cancelled)
    {
      localWq, loopWq := loopWq, [];
      ghost var n := 0;
      while localWq != []
        invariant cancelling == None && loopWq == [] && work == old(work) && ran == old(ran)
        invariant n <= |old(loopWq)| && localWq == old(loopWq)[n..]
        invariant |done| == |old(done)| + n && done[..|old(done)|] == old(done)
        invariant forall i :: 0 <= i < n ==> done[|old(done)| + i] == Done(old(loopWq)[i], work[old(loopWq)[i]] == Cancelled)
        decreases |localWq|
      {
        var id := localWq[0];
        localWq := localWq[1..];
        done := done + [Done(id, work[id] == Cancelled)];
        n := n + 1;
      }
    }
  }

  /** uv__work_cancel succeeds exactly when the work function has not been called. */
  lemma CancelSucceeds(s: State, id: nat)
    requires Inv(s) && Enabled(s, Action.Cancel(id))
    ensures InQueue(s, id) && !s.work[id].Null? <==> id !in s.ran
  {
    assert Copies(s, id) == 1 && ToldOf(s, id);
    assert Done(id, true) !in s.done && Done(id, false) !in s.done;
  }
}
