/** Timers of one event loop, kept in the heap of `HeapInl`. */
module Timer {
  import opened HeapInl

  const UINT64_MAX: nat := 0xFFFF_FFFF_FFFF_FFFF
  const INT_MAX: nat := 0x7FFF_FFFF
  const UV_EINVAL: int := -22

  /** The fields of a timer handle. */
  datatype State = State(timeout: nat, startId: nat, repeat: nat, active: bool, hasCallback: bool, closing: bool)

  /** A handle, with the heap node that is embedded in it. */
  type Handle = Node<State>

  /** timer_less_than */
  predicate TimerLessThan(a: State, b: State) {
    a.timeout < b.timeout || (a.timeout == b.timeout && a.startId < b.startId)
  }

  lemma TimersAreWeak()
    ensures StrictWeak(TimerLessThan)
  {
  }

  /** Loop time plus a delay in 64-bit arithmetic, clamped when the sum wraps. */
  function Clamp(time: nat, delay: nat): (t: nat)
    requires time <= UINT64_MAX && delay <= UINT64_MAX
    ensures t == if time + delay <= UINT64_MAX then time + delay else UINT64_MAX
  {
    var sum := (time + delay) % (UINT64_MAX + 1);
    if sum < delay then UINT64_MAX else sum
  }

  /** A repeating timer comes due again strictly later, except at the end of time. */
  lemma RearmsLater(time: nat, repeat: nat)
    requires time <= UINT64_MAX && 0 < repeat <= UINT64_MAX
    ensures Clamp(time, repeat) > time <==> time < UINT64_MAX
  {
  }

  ghost predicate FitsState(s: State, counter: nat) {
    s.active && s.hasCallback && !s.closing && s.startId < counter && s.timeout <= UINT64_MAX && s.repeat <= UINT64_MAX
  }

  class Loop {
    var time: nat
    var timerCounter: nat
    const heap: Heap<State>

    ghost predicate Valid()
      reads this, heap, heap.nodes
    {
      heap.Valid() && heap.less == TimerLessThan && heap.nelts <= UINT_MAX && time <= UINT64_MAX
      && (forall n :: n in heap.Elements() ==> FitsState(n.data, timerCounter))
      && forall m, n :: m in heap.Elements() && n in heap.Elements() && m != n ==> m.data.startId != n.data.startId
    }

    /** The flag of a handle says whether it is in the heap. */
    ghost predicate Known(handle: Handle)
      reads this, heap, handle
    {
      (handle.data.active <==> handle in heap.Elements()) && handle.data.repeat <= UINT64_MAX
    }

    constructor (time: nat)
      requires time <= UINT64_MAX
      ensures Valid() && fresh(heap) && heap.Elements() == {} && this.time == time
    {
      TimersAreWeak();
      this.time, timerCounter := time, 0;
      heap := new Heap(TimerLessThan);
    }

    /** uv_timer_stop */
    method Stop(handle: Handle)
      requires Valid() && Known(handle)
      modifies heap, heap.Elements()`left, heap.Elements()`right, heap.Elements()`parent, handle`data
      ensures Valid() && Known(handle) && heap.Elements() == old(heap.Elements()) - {handle}
      ensures handle.data == old(handle.data).(active := false)
      ensures heap.nelts <= old(heap.nelts) && (old(handle.data).active ==> heap.nelts < old(heap.nelts))
    {
      hide Heap.Valid, FitsState;
      if !handle.data.active {
        return;
      }
      heap.Counted();
      heap.Remove(handle);
      handle.data := handle.data.(active := false);
    }

    /** uv_close of a timer: it is stopped, and will not be started again. */
    method Close(handle: Handle)
      requires Valid() && Known(handle)
      modifies heap, heap.Elements()`left, heap.Elements()`right, heap.Elements()`parent, handle`data
      ensures Valid() && Known(handle) && heap.Elements() == old(heap.Elements()) - {handle}
      ensures handle.data == old(handle.data).(active := false, closing := true)
    {
      hide Heap.Valid, FitsState;
      Stop(handle);
      handle.data := handle.data.(closing := true);
    }

    /** uv_timer_start */
    method Start(handle: Handle, callback: bool, timeout: nat, repeat: nat) returns (r: int)
      requires Valid() && Known(handle) && timeout <= UINT64_MAX && repeat <= UINT64_MAX
      requires handle !in heap.Elements() ==> heap.nelts < UINT_MAX
      modifies this`timerCounter, heap, heap.Elements()`left, heap.Elements()`right, heap.Elements()`parent, handle
      ensures Valid() && Known(handle)
      ensures r == if old(handle.data).closing || !callback then UV_EINVAL else 0
      ensures r != 0 ==> heap.Elements() == old(heap.Elements()) && timerCounter == old(timerCounter) && handle.data == old(handle.data)
      ensures heap.nelts <= old(heap.nelts) + 1
      ensures r == 0 ==>
        && heap.Elements() == old(heap.Elements()) + {handle} && timerCounter == old(timerCounter) + 1
        && handle.data == State(Clamp(time, timeout), old(timerCounter), repeat, true, true, false)
    {
      hide Heap.Valid, FitsState;
      if handle.data.closing || !callback {
        return UV_EINVAL;
      }
      if handle.data.active {
        Stop(handle);
      }
      var clamped := (time + timeout) % (UINT64_MAX + 1);
      if clamped < timeout {
        clamped := UINT64_MAX;
      }
      assert clamped == Clamp(time, timeout);
      Arm(handle, clamped, repeat);
      return 0;
    }

    method Arm(handle: Handle, timeout: nat, repeat: nat)
      requires Valid() && handle !in heap.Elements() && heap.nelts < UINT_MAX && !handle.data.closing
      requires timeout <= UINT64_MAX && repeat <= UINT64_MAX
      modifies this`timerCounter, heap, heap.Elements()`left, heap.Elements()`right, heap.Elements()`parent, handle
      ensures Valid() && Known(handle)
      ensures heap.Elements() == old(heap.Elements()) + {handle} && timerCounter == old(timerCounter) + 1
      ensures handle.data == State(timeout, old(timerCounter), repeat, true, true, false) && heap.nelts == old(heap.nelts) + 1
    {
      hide Heap.Valid;
      handle.data := State(timeout, timerCounter, repeat, true, true, false);
      timerCounter := timerCounter + 1;
      heap.Insert(handle);
    }

    /** uv_timer_again: a closing handle is not started again, and still there is no error. */
    method Again(handle: Handle) returns (r: int)
      requires Valid() && Known(handle)
      requires handle !in heap.Elements() ==> heap.nelts < UINT_MAX
      modifies this`timerCounter, heap, heap.Elements()`left, heap.Elements()`right, heap.Elements()`parent, handle
      ensures Valid() && Known(handle)
      ensures r == if old(handle.data).hasCallback then 0 else UV_EINVAL
      ensures
        var s := old(handle.data);
        if s.hasCallback && s.repeat > 0 && !s.closing
        then
          && heap.Elements() == old(heap.Elements()) + {handle} && timerCounter == old(timerCounter) + 1
          && handle.data == State(Clamp(time, s.repeat), old(timerCounter), s.repeat, true, true, false)
        else heap.Elements() == old(heap.Elements()) && timerCounter == old(timerCounter) && handle.data == s
    {
      hide Heap.Valid;
      if !handle.data.hasCallback {
        return UV_EINVAL;
      }
      if handle.data.repeat > 0 {
        Stop(handle);
        var _ := Start(handle, true, handle.data.repeat, handle.data.repeat);
      }
      return 0;
    }

    /** How long the loop may block: the exact wait to the earliest timer, 0 when one
        is due, -1 when there is none. */
    method NextTimeout() returns (wait: int)
      requires Valid()
      ensures wait == -1 <==> heap.Elements() == {}
      ensures wait == 0 <==> exists n :: n in heap.Elements() && n.data.timeout <= time
      ensures wait > 0 ==> exists n :: n in heap.Elements() && wait == (if n.data.timeout - time > INT_MAX then INT_MAX else n.data.timeout - time)
      ensures forall n :: n in heap.Elements() && wait > 0 ==> n.data.timeout - time >= wait
    {
      hide Heap.Valid, FitsState;
      var n := heap.Min();
      if n == null {
        return -1;
      }
      if n.data.timeout <= time {
        return 0;
      }
      var diff := n.data.timeout - time;
      if diff > INT_MAX {
        diff := INT_MAX;
      }
      return diff;
    }

    ghost function Due(): set<Handle>
      reads this, heap, heap.Elements()
    {
      set n | n in heap.Elements() && n.data.timeout <= time
    }

    /** Taking the earliest timer off the heap, and back on when it repeats. */
    method Fire(handle: Handle)
      requires Valid() && handle in heap.Elements()
      modifies this`timerCounter, heap, heap.Elements()`left, heap.Elements()`right, heap.Elements()`parent, handle
      ensures Valid() && handle.data.repeat == old(handle.data.repeat)
      ensures heap.Elements() == old(heap.Elements()) - if handle.data.repeat == 0 then {handle} else {}
      ensures handle.data.repeat > 0 && time < UINT64_MAX ==> Rearmed(time, handle.data)
    {
      hide Heap.Valid;
      assert FitsState(handle.data, timerCounter);
      Stop(handle);
      var _ := Again(handle);
    }

    /** uv__run_timers with callbacks that touch no timer, before the end of time. Every due
        timer fires once, in order of timeout and start; nothing due is left; timers that were
        not due are untouched; a repeating timer is pending again, strictly later. */
    method RunTimers() returns (fired: seq<Handle>, ghost was: map<Handle, State>)
      requires Valid() && (time < UINT64_MAX || forall n :: n in Due() ==> n.data.repeat == 0)
      modifies this`timerCounter, heap, heap.Elements()
      ensures was == old(map n | n in heap.Elements() :: n.data)
      ensures Valid() && Due() == {}
      ensures EarliestFirst(fired, was) && Set(fired) == DueAt(was, time)
      ensures heap.Elements() == set n | n in was && (was[n].timeout <= time ==> was[n].repeat > 0)
      ensures forall n :: n in was && was[n].timeout > time ==> n.data == was[n]
      ensures forall n :: n in was && was[n].timeout <= time && was[n].repeat > 0 ==> Rearmed(time, n.data) && n.data.repeat == was[n].repeat
    {
      hide Heap.Valid, FitsState, InOrder, EarliestFirst, StartsDiffer, DueAt, Rearmed, TimerLessThan;
      fired := [];
      ghost var all := heap.Elements();
      was := map n | n in all :: n.data;
      NothingFired(all, was);
      while true
        invariant time == old(time) && Midway(all, was, fired)
        decreases |DueAt(was, time)| - |fired|
      {
        var earliest := heap.Min();
        if earliest == null {
          break;
        }
        var handle: Handle := earliest;
        if handle.data.timeout > time {
          NoneDue(handle);
          break;
        }
        FireNext(handle, all, was, fired);
        fired := fired + [handle];
      }
      AllFired(all, was, fired);
    }

    /** Two timers started one after the other for the same time: whenever the loop gets to them,
        they fire in that order. */
    method StartBoth(first: Handle, second: Handle, timeout: nat, now: nat) returns (fired: seq<Handle>)
      requires Valid() && Known(first) && Known(second) && first != second && timeout <= UINT64_MAX && heap.nelts + 2 <= UINT_MAX
      requires !first.data.closing && !second.data.closing && Clamp(time, timeout) <= now < UINT64_MAX
      modifies this, heap, heap.Elements(), first, second
      ensures exists i, j :: 0 <= i < j < |fired| && fired[i] == first && fired[j] == second
    {
      hide Heap.Valid, FitsState, DueAt;
      var a := Start(first, true, timeout, 0);
      ghost var state := first.data;
      var b := Start(second, true, timeout, 0);
      assert first.data == state;
      time := now;
      ghost var was;
      fired, was := RunTimers();
      BothFired(fired, was, now, first, second);
    }

    /** Midway: the heap holds what was not due, what has yet to fire and what repeats. */
    ghost predicate Midway(all: set<Handle>, was: map<Handle, State>, fired: seq<Handle>)
      reads this, heap, heap.nodes, all
    {
      && Valid() && was.Keys == all && InOrder(fired, DueAt(was, time), was)
      && CanRearm(was, time) && StartsDiffer(was)
      && heap.Elements() == Pending(was, fired)
      && forall n :: n in all ==> Tracks(time, n.data, was[n], n in fired)
    }

    lemma NoneDue(handle: Handle)
      requires handle.data.timeout > time && forall m :: m in heap.Elements() ==> !TimerLessThan(m.data, handle.data)
      ensures forall m :: m in heap.Elements() ==> m.data.timeout > time
    {
    }

    lemma NothingFired(all: set<Handle>, was: map<Handle, State>)
      requires Valid() && all == heap.Elements() && was == (map n | n in all :: n.data)
      requires time < UINT64_MAX || forall n :: n in Due() ==> n.data.repeat == 0
      ensures Midway(all, was, [])
    {
      hide Heap.Valid, TimerLessThan;
      assert heap.Elements() == Pending(was, []);
      assert Set<State>([]) == {} && InOrder([], DueAt(was, time), was);
    }

    method FireNext(handle: Handle, ghost all: set<Handle>, ghost was: map<Handle, State>, ghost fired: seq<Handle>)
      requires Midway(all, was, fired) && handle in heap.Elements() && handle.data.timeout <= time
      requires forall m :: m in heap.Elements() ==> !TimerLessThan(m.data, handle.data)
      modifies this`timerCounter, heap, heap.Elements()
      ensures Midway(all, was, fired + [handle]) && |fired| < |DueAt(was, time)|
    {
      hide Heap.Valid, FitsState, InOrder, Rearmed, TimerLessThan;
      StillDue(all, was, fired, handle);
      FiresNext(fired, DueAt(was, time), was, handle);
      ghost var before := heap.Elements();
      Fire(handle);
      PendingNext(was, fired, handle);
      forall n | n in all ensures Tracks(time, n.data, was[n], n in fired + [handle]) {
        assert old(Tracks(time, n.data, was[n], n in fired));
      }
    }

    /** The earliest timer has not fired, and nothing due that has not fired is before it. */
    lemma StillDue(all: set<Handle>, was: map<Handle, State>, fired: seq<Handle>, handle: Handle)
      requires Midway(all, was, fired) && handle in heap.Elements() && handle.data.timeout <= time
      requires forall m :: m in heap.Elements() ==> !TimerLessThan(m.data, handle.data)
      ensures handle in was && handle !in fired && handle in DueAt(was, time) && handle.data == was[handle]
      ensures forall m :: m in DueAt(was, time) && m !in fired ==> !TimerLessThan(was[m], was[handle])
      ensures was[handle].repeat > 0 ==> time < UINT64_MAX
    {
      hide Heap.Valid, FitsState, InOrder, TimerLessThan;
      assert Tracks(time, handle.data, was[handle], handle in fired);
      forall m | m in DueAt(was, time) && m !in fired ensures !TimerLessThan(was[m], was[handle]) {
        assert Tracks(time, m.data, was[m], false) && m in heap.Elements();
      }
    }

    lemma AllFired(all: set<Handle>, was: map<Handle, State>, fired: seq<Handle>)
      requires Midway(all, was, fired) && forall n :: n in heap.Elements() ==> n.data.timeout > time
      ensures Valid() && Due() == {} && EarliestFirst(fired, was)
      ensures Set(fired) == DueAt(was, time)
      ensures heap.Elements() == set n | n in was && (was[n].timeout <= time ==> was[n].repeat > 0)
      ensures forall n :: n in was && was[n].timeout > time ==> n.data == was[n]
      ensures forall n :: n in was && was[n].timeout <= time && was[n].repeat > 0 ==> Rearmed(time, n.data) && n.data.repeat == was[n].repeat
    {
      hide Heap.Valid, FitsState, TimerLessThan, Rearmed;
      OrderIsStrict(fired, DueAt(was, time), was);
      forall n | n in DueAt(was, time) ensures n in fired {
        assert Tracks(time, n.data, was[n], n in fired);
      }
      forall n | n in all ensures Tracks(time, n.data, was[n], n in DueAt(was, time)) {
        assert Tracks(time, n.data, was[n], n in fired);
      }
    }
  }

  /** Pending again, strictly later than the loop's time. */
  ghost predicate Rearmed(time: nat, s: State) {
    time <= UINT64_MAX && s.repeat <= UINT64_MAX && s.timeout == Clamp(time, s.repeat) > time
  }

  ghost function DueAt(was: map<Handle, State>, time: nat): set<Handle> {
    set n | n in was && was[n].timeout <= time
  }

  /** No due timer repeats at the end of time. */
  ghost predicate CanRearm(was: map<Handle, State>, time: nat) {
    time < UINT64_MAX || forall n :: n in DueAt(was, time) ==> was[n].repeat == 0
  }

  ghost function Pending(was: map<Handle, State>, fired: seq<Handle>): set<Handle> {
    set n | n in was && (n in fired ==> was[n].repeat > 0)
  }

  ghost predicate Tracks(time: nat, now: State, was: State, fired: bool) {
    if fired then now.repeat == was.repeat && (now.repeat > 0 ==> Rearmed(time, now)) else now == was
  }

  lemma PendingNext(was: map<Handle, State>, fired: seq<Handle>, n: Handle)
    requires n in was && n !in fired
    ensures Pending(was, fired + [n]) == Pending(was, fired) - if was[n].repeat == 0 then {n} else {}
  {
  }

  /** Fired so far, without repetition, in order, and ahead of what is still due. */
  ghost predicate InOrder(fired: seq<Handle>, due: set<Handle>, was: map<Handle, State>) {
    && due <= was.Keys && (forall n :: n in fired ==> n in due) && |fired| == |Set(fired)|
    && (forall i, j :: 0 <= i < j < |fired| ==> !TimerLessThan(was[fired[j]], was[fired[i]]))
    && forall i, n :: 0 <= i < |fired| && n in due && n !in fired ==> !TimerLessThan(was[n], was[fired[i]])
  }

  /** No two timers were started under one number. */
  ghost predicate StartsDiffer(was: map<Handle, State>) {
    forall m, n :: m in was && n in was && m != n ==> was[m].startId != was[n].startId
  }

  /** By due time, and of those due at one time the one started first. */
  ghost predicate EarliestFirst(fired: seq<Handle>, was: map<Handle, State>) {
    && (forall n :: n in fired ==> n in was)
    && forall i, j :: 0 <= i < j < |fired| ==>
         var a, b := was[fired[i]], was[fired[j]];
         a.timeout < b.timeout || (a.timeout == b.timeout && a.startId < b.startId)
  }

  lemma OrderIsStrict(fired: seq<Handle>, due: set<Handle>, was: map<Handle, State>)
    requires InOrder(fired, due, was) && StartsDiffer(was)
    ensures EarliestFirst(fired, was)
  {
    forall i, j | 0 <= i < j < |fired|
      ensures fired[i] in was && fired[j] in was && fired[i] != fired[j] && !TimerLessThan(was[fired[j]], was[fired[i]])
    {
      TwiceIsFewer(fired, i, j);
    }
  }

  lemma BothFired(fired: seq<Handle>, was: map<Handle, State>, time: nat, a: Handle, b: Handle)
    requires EarliestFirst(fired, was) && Set(fired) == DueAt(was, time) && a in was && b in was
    requires was[a].timeout == was[b].timeout <= time && was[a].startId < was[b].startId
    ensures exists i, j :: 0 <= i < j < |fired| && fired[i] == a && fired[j] == b
  {
    assert a in Set(fired) && b in Set(fired);
    var i :| 0 <= i < |fired| && fired[i] == a;
    var j :| 0 <= j < |fired| && fired[j] == b;
    assert i < j;
  }

  lemma {:induction false} SetIsSmall(ns: seq<Handle>)
    ensures |Set(ns)| <= |ns|
  {
    if ns != [] {
      var n := |ns| - 1;
      SetIsSmall(ns[..n]);
      assert Set(ns) == Set(ns[..n]) + {ns[n]};
    }
  }

  lemma TwiceIsFewer(ns: seq<Handle>, i: nat, j: nat)
    requires i < j < |ns|
    ensures ns[i] == ns[j] ==> |Set(ns)| < |ns|
  {
    if ns[i] == ns[j] {
      var rest := ns[..j] + ns[j + 1..];
      SetIsSmall(rest);
      assert rest[i] == ns[i];
      assert Set(ns) == Set(rest);
    }
  }

  lemma FewerThan(a: set<Handle>, b: set<Handle>, n: Handle)
    requires a <= b && n in b && n !in a
    ensures |a| < |b|
  {
    assert |b| == |a| + |b - a| by {
      assert b == a + (b - a);
    }
    assert n in b - a;
  }

  lemma FiresNext(fired: seq<Handle>, due: set<Handle>, was: map<Handle, State>, n: Handle)
    requires InOrder(fired, due, was) && n in due && n !in fired
    requires forall m :: m in due && m !in fired ==> !TimerLessThan(was[m], was[n])
    ensures InOrder(fired + [n], due, was) && |fired| < |due|
  {
    hide TimerLessThan;
    var next := fired + [n];
    FewerThan(Set(fired), due, n);
    assert Set(next) == Set(fired) + {n};
    forall i, j | 0 <= i < j < |next| ensures !TimerLessThan(was[next[j]], was[next[i]]) {
      assert next[i] == fired[i];
    }
    forall i, m | 0 <= i < |next| && m in due && m !in next ensures !TimerLessThan(was[m], was[next[i]]) {
      assert m !in fired && (i < |fired| ==> next[i] == fired[i]);
    }
  }
}
