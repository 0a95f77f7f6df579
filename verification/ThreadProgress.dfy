/** The pool comes to rest: left to itself it takes finitely many steps, and when it can take
    none, every request has been delivered. */
module ThreadProgress {
  import opened ThreadPool

  /** Steps that the workers and the loop take by themselves. A submission, a cancellation and a
      spurious wake-up come from outside, and collecting an empty queue does nothing. */
  predicate Own(s: State, a: Action) {
    a.Take? || a.Finish? || a.Relock? || a.PostCancelled? || a.Deliver? || (a.Collect? && s.loopQ != [])
  }

  // ----- what is left to do -----

  /** Six for a request that waits, one for the marker. */
  function Waits(wq: seq<Item>): nat {
    if wq == [] then 0 else (if wq[0].Work? then 6 else 1) + Waits(wq[1..])
  }

  /** Five for a request that runs, two before the mutex is taken again, one to look for work. */
  function Busy(ts: seq<Thread>): nat {
    if ts == [] then 0
    else (match ts[0] case Ready => 1 case Waiting => 0 case Working(_, _) => 5 case Returning(_) => 2) + Busy(ts[1..])
  }

  function Effort(t: Thread): nat {
    match t case Ready => 1 case Waiting => 0 case Working(_, _) => 5 case Returning(_) => 2
  }

  function Todo(s: State): nat {
    Waits(s.wq) + 6 * |s.slowPending| + Busy(s.threads) + 2 * |s.loopQ| + |s.localQ| + if s.cancelling.Some? then 3 else 0
  }

  /** How many items are queued behind the marker. */
  function Behind(wq: seq<Item>): nat {
    if wq == [] then 0 else if wq[0].Marker? then |wq| - 1 else Behind(wq[1..])
  }

  /** Moving the marker to the back leaves as much to do, but nothing behind the marker. */
  function Measure(s: State): nat {
    Todo(s) * Todo(s) + Behind(s.wq)
  }

  lemma {:induction false} BehindFew(wq: seq<Item>)
    ensures Behind(wq) <= |wq| <= Waits(wq)
  {
    if wq != [] {
      BehindFew(wq[1..]);
    }
  }

  lemma {:induction false} WaitsAppend(wq: seq<Item>, x: Item)
    ensures Waits(wq + [x]) == Waits(wq) + if x.Work? then 6 else 1
  {
    if wq != [] {
      assert (wq + [x])[1..] == wq[1..] + [x];
      WaitsAppend(wq[1..], x);
    }
  }

  lemma {:induction false} BehindLast(wq: seq<Item>)
    requires Marker !in wq
    ensures Behind(wq + [Marker]) == 0
  {
    if wq != [] {
      assert wq[0] in wq && (wq + [Marker])[1..] == wq[1..] + [Marker];
      BehindLast(wq[1..]);
    }
  }

  lemma {:induction false} BusyUpdate(ts: seq<Thread>, t: nat, x: Thread)
    requires t < |ts|
    ensures Busy(ts[t := x]) == Busy(ts) - Effort(ts[t]) + Effort(x)
  {
    if t == 0 {
      assert ts[0 := x][1..] == ts[1..];
    } else {
      assert ts[t := x][1..] == ts[1..][t - 1 := x];
      BusyUpdate(ts[1..], t - 1, x);
    }
  }

  lemma Times(a: nat, b: nat, c: nat)
    requires a <= b
    ensures a * c <= b * c && c * a <= c * b
  {
    assert b * c == a * c + (b - a) * c;
  }

  lemma Squares(m: nat, n: nat, b: nat)
    requires m < n && b <= m
    ensures m * m + b < n * n
  {
    Times(m + 1, n, n);
    Times(m + 1, n, m + 1);
    assert (m + 1) * (m + 1) == m * m + 2 * m + 1;
  }

  lemma Less(s: State, s': State)
    requires Todo(s') < Todo(s)
    ensures Measure(s') < Measure(s)
  {
    hide Behind, Busy, Waits;
    BehindFew(s'.wq);
    Squares(Todo(s'), Todo(s), Behind(s'.wq));
  }

  // ----- every own step comes closer -----

  lemma TakeComesCloser(s: State, a: Action)
    requires a.Take? && Enabled(s, a) && Inv(s)
    ensures Todo(Apply(s, a)) < Todo(s) || (Todo(Apply(s, a)) == Todo(s) && Behind(Apply(s, a).wq) < Behind(s.wq))
  {
    hide Apply, Inv, Threshold, MustWait;
    TakeIs(s, a);
    if MustWait(s) {
      BusyUpdate(s.threads, a.t, Waiting);
    } else {
      CanTake(s);
      var rest := s.wq[1..];
      if s.wq[0].Work? {
        BusyUpdate(s.threads, a.t, Working(s.wq[0].id, false));
      } else if s.slowRunning >= Threshold(|s.threads|) {
        WaitsAppend(rest, Marker);
        MarkerTurns(s);
      } else if s.slowPending != [] {
        SlowComesCloser(s, a);
      }
    }
  }

  /** The marker goes to the back of a queue in which something follows it. */
  lemma MarkerTurns(s: State)
    requires Inv(s) && !MustWait(s) && s.wq != [] && s.wq[0].Marker? && s.slowRunning >= Threshold(|s.threads|)
    ensures Behind(s.wq[1..] + [Marker]) == 0 < Behind(s.wq)
  {
    var rest := s.wq[1..];
    assert s.wq == [Marker] + rest;
    assert multiset(s.wq)[Marker] == 1 + multiset(rest)[Marker];
    BehindLast(rest);
  }

  lemma SlowComesCloser(s: State, a: Action)
    requires a.Take? && Enabled(s, a) && !MustWait(s) && s.wq != [] && s.wq[0].Marker?
    requires s.slowRunning < Threshold(|s.threads|) && s.slowPending != []
    ensures Todo(Apply(s, a)) < Todo(s)
  {
    hide Apply, Threshold, MustWait, Busy, Waits;
    TakeIs(s, a);
    var rest, started := s.wq[1..], Working(s.slowPending[0], true);
    BusyUpdate(s.threads, a.t, started);
    assert Waits(s.wq) == 1 + Waits(rest) by { FirstWaits(s.wq); }
    if s.slowPending[1..] != [] {
      WaitsAppend(rest, Marker);
      if s.idle > 0 {
        BusyUpdate(s.threads[a.t := started], a.wakee, Ready);
      }
    }
  }

  lemma FirstWaits(wq: seq<Item>)
    requires wq != []
    ensures Waits(wq) == (if wq[0].Work? then 6 else 1) + Waits(wq[1..])
  {
  }

  lemma StepComesCloser(s: State, a: Action)
    requires Enabled(s, a) && Own(s, a) && Inv(s)
    ensures Measure(Apply(s, a)) < Measure(s)
  {
    match a
    case Take(_, _) =>
      TakeComesCloser(s, a);
      if Todo(Apply(s, a)) < Todo(s) {
        Less(s, Apply(s, a));
      }
    case Finish(t) =>
      BusyUpdate(s.threads, t, Returning(s.threads[t].slow));
      Less(s, Apply(s, a));
    case Relock(t) =>
      BusyUpdate(s.threads, t, Ready);
      Less(s, Apply(s, a));
    case PostCancelled => Less(s, Apply(s, a));
    case Collect => Less(s, Apply(s, a));
    case Deliver => Less(s, Apply(s, a));
    case _ =>
  }

  // ----- runs -----

  ghost predicate OwnRun(s: State, run: seq<Action>, s': State)
    decreases |run|
  {
    if run == [] then s' == s
    else Enabled(s, run[0]) && Own(s, run[0]) && OwnRun(Apply(s, run[0]), run[1..], s')
  }

  /** Asleep, with nothing for the loop to do. */
  ghost predicate Quiet(s: State) {
    (forall t :: 0 <= t < |s.threads| ==> s.threads[t].Waiting?) && s.loopQ == [] && s.localQ == [] && s.cancelling.None?
  }

  /** No run of own steps is longer than what is left to do. */
  lemma {:induction false} RunsEnd(s: State, run: seq<Action>, s': State)
    requires Inv(s) && OwnRun(s, run, s')
    ensures Inv(s') && |run| + Measure(s') <= Measure(s)
    decreases |run|
  {
    hide Measure, Inv;
    if run != [] {
      StepKeepsInv(s, run[0]);
      StepComesCloser(s, run[0]);
      RunsEnd(Apply(s, run[0]), run[1..], s');
    }
  }

  /** A pool that is not quiet has a step to take. */
  lemma NotStuck(s: State) returns (a: Action)
    requires Inv(s)
    ensures !Quiet(s) ==> Enabled(s, a) && Own(s, a)
  {
    if s.cancelling.Some? {
      a := PostCancelled;
    } else if s.localQ != [] {
      GuardsHold(s, 0);
      a := Deliver;
    } else if s.loopQ != [] {
      a := Collect;
    } else if t :| 0 <= t < |s.threads| && !s.threads[t].Waiting? {
      a := ThreadSteps(s, t);
    } else {
      a := Collect;
    }
  }

  lemma ThreadSteps(s: State, t: nat) returns (a: Action)
    requires Inv(s) && t < |s.threads| && !s.threads[t].Waiting?
    ensures Enabled(s, a) && Own(s, a)
  {
    hide Inv, Enabled;
    GuardsHold(s, t);
    match s.threads[t]
    case Working(_, _) => a := Finish(t);
    case Returning(_) => a := Relock(t);
    case Ready =>
      var w :| Enabled(s, Take(t, w));
      a := Take(t, w);
  }

  /** From any state the pool comes to rest by itself. */
  lemma {:induction false} ComesToRest(s: State) returns (run: seq<Action>, s': State)
    requires Inv(s)
    ensures OwnRun(s, run, s') && Quiet(s') && Inv(s')
    decreases Measure(s)
  {
    hide Measure, Inv, Enabled, Own, Apply;
    if Quiet(s) {
      run, s' := [], s;
    } else {
      var a := NotStuck(s);
      StepKeepsInv(s, a);
      StepComesCloser(s, a);
      var rest;
      rest, s' := ComesToRest(Apply(s, a));
      run := [a] + rest;
      assert run[0] == a && run[1..] == rest;
    }
  }

  lemma {:induction false} OwnRunReaches(s0: State, before: seq<Action>, s: State, run: seq<Action>, s': State)
    requires Reaches(s0, before, s) && OwnRun(s, run, s')
    ensures Reaches(s0, before + run, s')
    decreases |before|, |run|
  {
    if before == [] {
      assert before + run == run;
      if run != [] {
        OwnRunReaches(Apply(s, run[0]), [], Apply(s, run[0]), run[1..], s');
        assert [] + run[1..] == run[1..];
      }
    } else {
      assert (before + run)[0] == before[0] && (before + run)[1..] == before[1..] + run;
      OwnRunReaches(Apply(s0, before[0]), before[1..], s, run, s');
    }
  }

  /** However the requests were submitted and cancelled so far: left to itself from there, the
      pool takes finitely many steps, and once it can take none, every request is delivered. */
  lemma EveryRequestIsDelivered(nthreads: nat, before: seq<Action>, s: State, run: seq<Action>, s': State)
    requires nthreads > 0 && Reaches(Init(nthreads), before, s) && OwnRun(s, run, s')
    ensures |run| <= Measure(s)
    ensures (forall a :: Enabled(s', a) ==> !Own(s', a)) ==> forall id :: id in s'.work ==> exists d :: d in s'.done && d.id == id
  {
    InitInv(nthreads);
    RunKeepsInv(Init(nthreads), before, s);
    RunsEnd(s, run, s');
    var a := NotStuck(s');
    if Quiet(s') {
      OwnRunReaches(Init(nthreads), before, s, run, s');
      QuietMeansDelivered(nthreads, before + run, s');
    }
  }
}
