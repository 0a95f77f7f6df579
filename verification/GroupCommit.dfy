/** Group commit: writers queue up, the one at the front writes a whole prefix of the
    queue to the log as one record, and completes those writers. */
module GroupCommit {

  type Op = string

  /** A write batch: its operations and its encoded size. */
  datatype Batch = Batch(ops: seq<Op>, bytes: nat)

  datatype Option<T> = None | Some(value: T)

  /** A thread in DB::Write; a null batch asks for a new memtable. */
  datatype Writer = Writer(id: nat, batch: Option<Batch>, sync: bool)

  /** One log record: the sequence number of its first operation, its operations. */
  datatype Record = Record(first: nat, ops: seq<Op>)

  /** A writer that is finished, who led its group, and the status it was given. */
  datatype Finished = Finished(writer: Writer, leader: nat, ok: bool)

  const MAX_GROUP: nat := 1048576      // 1 << 20
  const SMALL_GROUP: nat := 131072     // 128 << 10

  // ----- the group -----

  function Ops(ws: seq<Writer>): seq<Op> {
    if ws == [] then []
    else Ops(ws[..|ws| - 1]) + if ws[|ws| - 1].batch.Some? then ws[|ws| - 1].batch.value.ops else []
  }

  function Bytes(ws: seq<Writer>): nat {
    if ws == [] then 0
    else Bytes(ws[..|ws| - 1]) + if ws[|ws| - 1].batch.Some? then ws[|ws| - 1].batch.value.bytes else 0
  }

  function Limit(leader: Writer): nat
    requires leader.batch.Some?
  {
    if leader.batch.value.bytes <= SMALL_GROUP then leader.batch.value.bytes + SMALL_GROUP else MAX_GROUP
  }

  /** Writer `i` cannot join a group made of the writers before it. */
  predicate Excluded(queue: seq<Writer>, i: nat)
    requires queue != [] && queue[0].batch.Some? && i < |queue|
  {
    (queue[i].sync && !queue[0].sync)
    || (queue[i].batch.Some? && Bytes(queue[..i + 1]) > Limit(queue[0]))
  }

  /** The longest prefix in which nobody is excluded. */
  ghost predicate IsGroup(queue: seq<Writer>, n: nat)
    requires queue != [] && queue[0].batch.Some?
  {
    1 <= n <= |queue| && (forall i :: 1 <= i < n ==> !Excluded(queue, i)) && (n < |queue| ==> Excluded(queue, n))
  }

  lemma GroupIsUnique(queue: seq<Writer>, m: nat, n: nat)
    requires queue != [] && queue[0].batch.Some? && IsGroup(queue, m) && IsGroup(queue, n)
    ensures m == n
  {
  }

  /** A batch stands in the merged one behind those of the writers before it and in front of
      those of the writers after it, and counts with its whole size. */
  lemma {:induction false} BatchInGroup(ws: seq<Writer>, i: nat)
    requires i < |ws| && ws[i].batch.Some?
    ensures Ops(ws) == Ops(ws[..i]) + ws[i].batch.value.ops + Ops(ws[i + 1..])
    ensures Bytes(ws) == Bytes(ws[..i]) + ws[i].batch.value.bytes + Bytes(ws[i + 1..])
  {
    var last := |ws| - 1;
    if i == last {
      assert Ops(ws[i + 1..]) == [] && Bytes(ws[i + 1..]) == 0;
    } else {
      BatchInGroup(ws[..last], i);
      assert ws[..last][..i] == ws[..i] && ws[..last][i + 1..] == ws[i + 1..][..last - i - 1];
      assert Ops(ws[i + 1..]) == Ops(ws[i + 1..][..last - i - 1]) + if ws[last].batch.Some? then ws[last].batch.value.ops else [];
    }
  }

  /** Requests without a batch add nothing. */
  lemma {:induction false} BytesSplit(ws: seq<Writer>, m: nat)
    requires m <= |ws| && forall i :: m <= i < |ws| ==> ws[i].batch.None?
    ensures Bytes(ws) == Bytes(ws[..m])
  {
    if m == |ws| {
      assert ws[..m] == ws;
    } else {
      BytesSplit(ws[..|ws| - 1], m);
      assert ws[..|ws| - 1][..m] == ws[..m];
    }
  }

  /** The last batch of a group still fits in the limit. */
  lemma {:induction false} GroupIsBounded(queue: seq<Writer>, n: nat)
    requires queue != [] && queue[0].batch.Some? && IsGroup(queue, n)
    ensures (exists i :: 1 <= i < n && queue[i].batch.Some?) ==> Bytes(queue[..n]) <= Limit(queue[0])
  {
    if i :| 1 <= i < n && queue[i].batch.Some? {
      var m := LastBatch(queue, n, i);
      assert !Excluded(queue, m);
      BytesSplit(queue[..n], m + 1);
      assert queue[..n][..m + 1] == queue[..m + 1];
    }
  }

  lemma {:induction false} LastBatch(queue: seq<Writer>, n: nat, i: nat) returns (m: nat)
    requires i < n <= |queue| && queue[i].batch.Some?
    ensures i <= m < n && queue[m].batch.Some? && forall j :: m < j < n ==> queue[j].batch.None?
    decreases n
  {
    if queue[n - 1].batch.Some? {
      m := n - 1;
    } else {
      m := LastBatch(queue, n - 1, i);
    }
  }

  /** ... and the writer behind it does not. */
  lemma GroupIsFull(queue: seq<Writer>, n: nat)
    requires queue != [] && queue[0].batch.Some? && IsGroup(queue, n) && n < |queue|
    ensures (queue[n].sync && !queue[0].sync) || (queue[n].batch.Some? && Bytes(queue[..n]) + queue[n].batch.value.bytes > Limit(queue[0]))
  {
    assert queue[..n + 1][..n] == queue[..n];
  }

  /** BuildBatchGroup: how many writers the leader serves and the merged batch. */
  method BuildBatchGroup(queue: seq<Writer>) returns (n: nat, result: seq<Op>)
    requires queue != [] && queue[0].batch.Some?
    ensures IsGroup(queue, n) && result == Ops(queue[..n])
    ensures forall i :: 0 <= i < n && queue[i].sync ==> queue[0].sync
    ensures (exists i :: 1 <= i < n && queue[i].batch.Some?) ==>
      Bytes(queue[..n]) <= if queue[0].batch.value.bytes > 131072 then 1048576 else queue[0].batch.value.bytes + 131072
    ensures n < |queue| ==>
      || (queue[n].sync && !queue[0].sync)
      || (queue[n].batch.Some?
          && Bytes(queue[..n]) + queue[n].batch.value.bytes >
             if queue[0].batch.value.bytes > 131072 then 1048576 else queue[0].batch.value.bytes + 131072)
  {
    var first := queue[0];
    result := first.batch.value.ops;
    var size := first.batch.value.bytes;
    var maxSize := MAX_GROUP;
    if size <= SMALL_GROUP {
      maxSize := size + SMALL_GROUP;
    }
    n := 1;
    assert queue[..1][..0] == [];
    while n < |queue|
      invariant 1 <= n <= |queue|
      invariant size == Bytes(queue[..n]) && result == Ops(queue[..n])
      invariant forall i :: 1 <= i < n ==> !Excluded(queue, i)
    {
      var w := queue[n];
      assert queue[..n + 1][..n] == queue[..n];
      if w.sync && !first.sync {
        break;
      }
      if w.batch.Some? {
        size := size + w.batch.value.bytes;
        if size > maxSize {
          break;
        }
        result := result + w.batch.value.ops;
      }
      n := n + 1;
    }
    forall i | 0 <= i < n && queue[i].sync ensures queue[0].sync {
      assert i > 0 ==> !Excluded(queue, i);
    }
    GroupIsBounded(queue, n);
    if n < |queue| {
      GroupIsFull(queue, n);
    }
  }

  /** A request without a batch joins exactly if all before it do, unless it wants a sync that
      the leader does not make. */
  lemma RequestJoins(queue: seq<Writer>, n: nat, i: nat)
    requires queue != [] && queue[0].batch.Some? && IsGroup(queue, n) && 1 <= i < |queue| && queue[i].batch.None?
    ensures i < n <==> (queue[i].sync ==> queue[0].sync) && forall j :: 1 <= j < i ==> !Excluded(queue, j)
  {
    assert Excluded(queue, i) <==> queue[i].sync && !queue[0].sync;
  }

  // ----- the write path -----

  /** How the unlocked part of a write went. */
  datatype Outcome = Written | AppendFailed | SyncFailed

  /** The queue, the group being written, the log, and who finished: what is logged is what was
      reported as written, in the order the writers queued. */
  ghost predicate History(queued: seq<Writer>, finished: seq<Finished>, writers: seq<Writer>, leading: Option<nat>, pending: Record,
                          outcome: Option<Outcome>, log: seq<Record>, good: seq<bool>, lastSequence: nat)
  {
    && queued == Names(finished) + writers && DistinctIds(queued)
    && |good| == |log| && pending.first >= 1
    && Succeeded(log, good) == OkOps(finished) + (if outcome == Some(Written) then pending.ops else [])
    && Disjoint(log, if outcome.Some? then pending.first + |pending.ops| else lastSequence + 1)
    && match leading
       case None => outcome.None?
       case Some(n) => writers != [] && writers[0].batch.Some? && Led(writers, n) && pending == Record(lastSequence + 1, Ops(writers[..n]))
  }

  ghost predicate DistinctIds(ws: seq<Writer>) {
    forall i, j :: 0 <= i < j < |ws| ==> ws[i].id != ws[j].id
  }

  ghost function Ids(ws: seq<Writer>): set<nat> {
    set w | w in ws :: w.id
  }

  /** The threads of the writers: asleep on their condition variable, about to test it, or past
      the test to lead; and the statuses that were left for them or have been returned. Only the
      front writer leads, and neither it nor a writer that is done is asleep. */
  ghost predicate Threads(writers: seq<Writer>, finished: seq<Finished>, asleep: set<nat>, awake: set<nat>, leaders: set<nat>,
                          done: map<nat, bool>, returned: map<nat, bool>)
  {
    && asleep + awake + leaders == Ids(writers) + done.Keys
    && asleep !! awake && asleep !! leaders && awake !! leaders && done.Keys !! Ids(writers) && returned.Keys !! Ids(writers)
    && done.Keys <= awake && done.Keys !! returned.Keys && done.Keys + returned.Keys == FinishedIds(finished)
    && (forall id :: id in leaders ==> writers != [] && writers[0].id == id)
    && (writers != [] ==> writers[0].id !in asleep)
    && forall f :: f in finished ==> Reported(f, done, returned)
  }

  ghost function FinishedIds(fs: seq<Finished>): set<nat> {
    set f | f in fs :: f.writer.id
  }

  /** A finished writer is told its status once: it is left for it, or returned. */
  ghost predicate Reported(f: Finished, done: map<nat, bool>, returned: map<nat, bool>) {
    var id := f.writer.id;
    (id in done ==> done[id] == f.ok) && (id in returned ==> returned[id] == f.ok)
  }

  /** The requests for a new memtable that were met: those that led and were let through. One
      that joined another's group is given that group's status, whatever it is. */
  ghost predicate Requests(finished: seq<Finished>, forced: set<nat>) {
    && forced <= FinishedIds(finished)
    && forall f :: f in finished ==> (f.writer.id in forced <==> f.writer.batch.None? && f.leader == f.writer.id && f.ok)
  }

  lemma LeaveRequests(finished: seq<Finished>, forced: set<nat>, w: Writer, ok: bool)
    requires Requests(finished, forced) && w.id !in FinishedIds(finished)
    ensures Requests(finished + [Finished(w, w.id, ok)], if ok && w.batch.None? then forced + {w.id} else forced)
  {
    assert [Finished(w, w.id, ok)] == Returned([w], ok);
    GroupFinished(finished, [w], ok);
    IdsOfBoth([], [w]);
    forall f | f in finished ensures f.writer.id != w.id {
      FinishedHas(finished, f);
    }
  }

  lemma CompleteRequests(finished: seq<Finished>, forced: set<nat>, group: seq<Writer>, ok: bool)
    requires Requests(finished, forced) && group != [] && group[0].batch.Some? && DistinctIds(group)
    requires FinishedIds(finished) !! Ids(group)
    ensures Requests(finished + Returned(group, ok), forced)
  {
    hide FinishedIds, Ids, Returned;
    GroupFinished(finished, group, ok);
    forall f | f in Returned(group, ok) ensures f.writer.id !in forced && (f.writer.batch.None? ==> f.leader != f.writer.id) {
      InGroup(group, ok, f);
      NotTheLeader(group, ok, f);
    }
  }

  lemma NotTheLeader(group: seq<Writer>, ok: bool, f: Finished)
    requires f in Returned(group, ok) && group[0].batch.Some? && DistinctIds(group)
    ensures f.writer.batch.None? ==> f.leader != f.writer.id
  {
    var i :| 0 <= i < |group| && Returned(group, ok)[i] == f;
    assert f.leader == group[0].id && f.writer == group[i];
  }

  // ----- what happens to the history -----

  lemma EnqueueHistory(queued: seq<Writer>, finished: seq<Finished>, writers: seq<Writer>, leading: Option<nat>, pending: Record,
                       outcome: Option<Outcome>, log: seq<Record>, good: seq<bool>, lastSequence: nat, w: Writer)
    requires History(queued, finished, writers, leading, pending, outcome, log, good, lastSequence)
    requires forall v :: v in queued ==> v.id != w.id
    ensures History(queued + [w], finished, writers + [w], leading, pending, outcome, log, good, lastSequence)
    ensures w.id !in Ids(writers) && w.id !in FinishedIds(finished)
  {
    hide Succeeded, OkOps, Ops, Disjoint;
    if leading.Some? {
      assert (writers + [w])[..leading.value] == writers[..leading.value];
    }
    forall v | v in writers ensures v in queued {
    }
    forall f | f in finished ensures f.writer in queued {
      var i :| 0 <= i < |finished| && finished[i] == f;
      assert queued[i] == Names(finished)[i] == f.writer;
    }
  }

  lemma LeaveHistory(queued: seq<Writer>, finished: seq<Finished>, writers: seq<Writer>, pending: Record,
                     log: seq<Record>, good: seq<bool>, lastSequence: nat, ok: bool)
    requires History(queued, finished, writers, None, pending, None, log, good, lastSequence)
    requires writers != [] && !(ok && writers[0].batch.Some?)
    ensures History(queued, finished + [Finished(writers[0], writers[0].id, ok)], writers[1..], None, pending, None, log, good, lastSequence)
  {
    hide Succeeded, OkOps, Disjoint, DistinctIds;
    OneMore(finished, Finished(writers[0], writers[0].id, ok));
    assert writers == [writers[0]] + writers[1..];
  }

  lemma BeginHistory(queued: seq<Writer>, finished: seq<Finished>, writers: seq<Writer>, pending: Record,
                     log: seq<Record>, good: seq<bool>, lastSequence: nat, n: nat)
    requires History(queued, finished, writers, None, pending, None, log, good, lastSequence)
    requires writers != [] && writers[0].batch.Some? && Led(writers, n)
    ensures History(queued, finished, writers, Some(n), Record(lastSequence + 1, Ops(writers[..n])), None, log, good, lastSequence)
  {
    hide Succeeded, OkOps, Ops, Disjoint, DistinctIds;
  }

  lemma LogHistory(queued: seq<Writer>, finished: seq<Finished>, writers: seq<Writer>, leading: Option<nat>, pending: Record,
                   log: seq<Record>, good: seq<bool>, lastSequence: nat, o: Outcome)
    requires leading.Some? && History(queued, finished, writers, leading, pending, None, log, good, lastSequence)
    ensures o.AppendFailed? ==> History(queued, finished, writers, leading, pending, Some(o), log, good, lastSequence)
    ensures !o.AppendFailed? ==> History(queued, finished, writers, leading, pending, Some(o), log + [pending], good + [o.Written?], lastSequence)
  {
    hide OkOps, Ops, DistinctIds, Succeeded, Disjoint, Led;
    OneMoreLogged(log, good, pending, o.Written?, lastSequence + 1);
  }

  lemma OneMoreLogged(log: seq<Record>, good: seq<bool>, pending: Record, written: bool, next: nat)
    requires |good| == |log| && Disjoint(log, next) && pending.first == next >= 1
    ensures Succeeded(log + [pending], good + [written]) == Succeeded(log, good) + if written then pending.ops else []
    ensures Disjoint(log, next + |pending.ops|) && Disjoint(log + [pending], next + |pending.ops|)
  {
    var longer, told := log + [pending], good + [written];
    assert longer[..|log|] == log && told[..|good|] == good;
  }

  lemma CompleteHistory(queued: seq<Writer>, finished: seq<Finished>, writers: seq<Writer>, n: nat, pending: Record,
                        o: Outcome, log: seq<Record>, good: seq<bool>, lastSequence: nat)
    requires History(queued, finished, writers, Some(n), pending, Some(o), log, good, lastSequence)
    ensures 1 <= n <= |writers|
    ensures History(queued, finished + Returned(writers[..n], o.Written?), writers[n..], None, pending, None, log, good, lastSequence + |pending.ops|)
  {
    hide Succeeded, OkOps, Ops, DistinctIds, Names, Returned;
    var group, rest := writers[..n], writers[n..];
    Leaves(finished, group, o.Written?);
    assert writers == group + rest && Names(finished) + writers == Names(finished) + group + rest;
  }

  // ----- what happens to the threads -----

  lemma EnqueueThreads(writers: seq<Writer>, finished: seq<Finished>, asleep: set<nat>, awake: set<nat>, leaders: set<nat>,
                       done: map<nat, bool>, returned: map<nat, bool>, w: Writer)
    requires Threads(writers, finished, asleep, awake, leaders, done, returned)
    requires w.id !in Ids(writers) && w.id !in FinishedIds(finished)
    ensures Threads(writers + [w], finished, asleep, awake + {w.id}, leaders, done, returned)
  {
    hide Reported, FinishedIds;
    assert Ids(writers + [w]) == Ids(writers) + {w.id} by { IdsOfBoth(writers, [w]); }
  }

  lemma IdsOfBoth(a: seq<Writer>, b: seq<Writer>)
    ensures Ids(a + b) == Ids(a) + Ids(b)
    ensures |b| == 1 ==> Ids(b) == {b[0].id}
  {
    forall id ensures id in Ids(a + b) <==> id in Ids(a) + Ids(b) {
      if id in Ids(a) {
        var w :| w in a && w.id == id;
        assert w in a + b;
      }
      if id in Ids(b) {
        var w :| w in b && w.id == id;
        assert w in a + b;
      }
    }
  }

  /** A writer that is done takes its status and returns. */
  lemma DoneReturns(writers: seq<Writer>, finished: seq<Finished>, asleep: set<nat>, awake: set<nat>, leaders: set<nat>,
                    done: map<nat, bool>, returned: map<nat, bool>, id: nat)
    requires Threads(writers, finished, asleep, awake, leaders, done, returned) && id in done
    ensures Threads(writers, finished, asleep, awake - {id}, leaders, done - {id}, returned[id := done[id]])
  {
    hide FinishedIds, Ids;
    forall f | f in finished ensures Reported(f, done - {id}, returned[id := done[id]]) {
      assert Reported(f, done, returned);
    }
  }

  /** The front writer leads, and no other. */
  lemma FrontLeads(writers: seq<Writer>, finished: seq<Finished>, asleep: set<nat>, awake: set<nat>, leaders: set<nat>,
                   done: map<nat, bool>, returned: map<nat, bool>, id: nat)
    requires Threads(writers, finished, asleep, awake, leaders, done, returned) && id in awake && id !in done
    ensures writers != [] && id in Ids(writers)
    ensures writers[0].id == id ==> leaders == {} && Threads(writers, finished, asleep, awake - {id}, {id}, done, returned)
    ensures writers[0].id != id ==> Threads(writers, finished, asleep + {id}, awake - {id}, leaders, done, returned)
  {
    hide Reported, FinishedIds;
  }

  lemma Wakes(writers: seq<Writer>, finished: seq<Finished>, asleep: set<nat>, awake: set<nat>, leaders: set<nat>,
              done: map<nat, bool>, returned: map<nat, bool>, id: nat)
    requires Threads(writers, finished, asleep, awake, leaders, done, returned) && id in asleep
    ensures Threads(writers, finished, asleep - {id}, awake + {id}, leaders, done, returned)
  {
    hide Reported, FinishedIds, Ids;
  }

  /** Who sleeps once these have been signalled. */
  ghost function Left(asleep: set<nat>, signalled: set<nat>): set<nat> {
    asleep - signalled
  }

  ghost function Woken(asleep: set<nat>, awake: set<nat>, signalled: set<nat>): set<nat> {
    awake + asleep * signalled
  }

  ghost function Front(writers: seq<Writer>): set<nat> {
    if writers == [] then {} else {writers[0].id}
  }

  ghost function Told(done: map<nat, bool>, group: seq<Writer>, ok: bool): map<nat, bool> {
    done + map id | id in Ids(group) :: ok
  }

  /** Signalling some and then others. */
  lemma SignalBoth(asleep: set<nat>, awake: set<nat>, a: set<nat>, b: set<nat>)
    ensures Left(asleep, a + b) == Left(Left(asleep, a), b)
    ensures Woken(asleep, awake, a + b) == Woken(Left(asleep, a), Woken(asleep, awake, a), b)
  {
  }

  lemma CompleteSets(asleep: set<nat>, awake: set<nat>, leader: nat, a: set<nat>, b: set<nat>, front: set<nat>, done: set<nat>, returned: set<nat>)
    requires asleep + awake + {leader} == {leader} + a + b + done
    requires asleep !! awake && leader !in asleep && leader !in awake && done <= awake && done !! returned
    requires done !! ({leader} + a + b) && returned !! ({leader} + a + b) && leader !in a && leader !in b && a !! b && front <= b
    ensures
      var left, woken := Left(asleep, a + front), Woken(asleep, awake, a + front);
      && left + woken == b + (done + a) && left !! woken && (done + a) !! b && (returned + {leader}) !! b
      && done + a <= woken && (done + a) !! (returned + {leader}) && left !! front
  {
    forall id ensures id in asleep + awake <==> id in a + b + done {
      assert id in asleep + awake + {leader} <==> id in {leader} + a + b + done;
    }
  }

  lemma CompleteReports(finished: seq<Finished>, group: seq<Writer>, done: map<nat, bool>, returned: map<nat, bool>, followers: seq<Writer>, ok: bool)
    requires group != [] && group[1..] == followers && Ids(group) == {group[0].id} + Ids(followers)
    requires (forall f :: f in finished ==> Reported(f, done, returned)) && FinishedIds(finished) !! Ids(group)
    requires group[0].id !in done && group[0].id !in Ids(followers) && returned.Keys !! Ids(followers)
    ensures forall f :: f in finished + Returned(group, ok) ==> Reported(f, Told(done, followers, ok), returned[group[0].id := ok])
  {
    hide FinishedIds, Ids;
    forall f | f in finished + Returned(group, ok) ensures Reported(f, Told(done, followers, ok), returned[group[0].id := ok]) {
      if f in finished {
        FinishedHas(finished, f);
        assert Reported(f, done, returned);
      } else {
        InGroup(group, ok, f);
      }
    }
  }

  lemma FrontIsIn(rest: seq<Writer>)
    ensures Front(rest) <= Ids(rest)
  {
  }

  lemma CompleteThreads(writers: seq<Writer>, finished: seq<Finished>, asleep: set<nat>, awake: set<nat>, leaders: set<nat>,
                        done: map<nat, bool>, returned: map<nat, bool>, n: nat, ok: bool)
    requires Threads(writers, finished, asleep, awake, leaders, done, returned) && DistinctIds(writers)
    requires leaders != {} && 1 <= n <= |writers|
    ensures leaders == {writers[0].id}
    ensures
      var followers, rest := writers[1..n], writers[n..];
      var signalled := Ids(followers) + Front(rest);
      Threads(rest, finished + Returned(writers[..n], ok), Left(asleep, signalled), Woken(asleep, awake, signalled), {},
              Told(done, followers, ok), returned[writers[0].id := ok])
  {
    hide Ids, FinishedIds, Reported, Left, Woken, DistinctIds, Returned;
    var leader, group, followers, rest := writers[0].id, writers[..n], writers[1..n], writers[n..];
    assert leaders == {leader};
    SplitIds(writers, n);
    GroupFinished(finished, group, ok);
    FrontIsIn(rest);
    assert group[1..] == followers;
    assert Told(done, followers, ok).Keys == done.Keys + Ids(followers);
    assert returned[leader := ok].Keys == returned.Keys + {leader};
    CompleteSets(asleep, awake, leader, Ids(followers), Ids(rest), Front(rest), done.Keys, returned.Keys);
    CompleteReports(finished, group, done, returned, followers, ok);
  }

  lemma ApartSlices(ws: seq<Writer>, i: nat, j: nat, k: nat)
    requires DistinctIds(ws) && i <= j <= k <= |ws|
    ensures Ids(ws[i..j]) !! Ids(ws[j..k]) && Ids(ws[i..k]) == Ids(ws[i..j]) + Ids(ws[j..k])
  {
    hide DistinctIds;
    var a, b := ws[i..j], ws[j..k];
    assert ws[i..k] == a + b;
    IdsOfBoth(a, b);
    forall v, w | v in a && w in b ensures v.id != w.id {
      ApartMembers(ws, i, j, k, v, w);
    }
  }

  lemma ApartMembers(ws: seq<Writer>, i: nat, j: nat, k: nat, v: Writer, w: Writer)
    requires DistinctIds(ws) && i <= j <= k <= |ws| && v in ws[i..j] && w in ws[j..k]
    ensures v.id != w.id
  {
    var m :| i <= m < j && ws[m] == v;
    var n :| j <= n < k && ws[n] == w;
  }

  lemma SplitIds(writers: seq<Writer>, n: nat)
    requires DistinctIds(writers) && 1 <= n <= |writers|
    ensures
      var leader, a, b := writers[0].id, Ids(writers[1..n]), Ids(writers[n..]);
      Ids(writers) == {leader} + a + b && leader !in a && leader !in b && a !! b && Ids(writers[..n]) == {leader} + a
  {
    hide Ids, DistinctIds;
    ApartSlices(writers, 0, 1, |writers|);
    ApartSlices(writers, 0, 1, n);
    ApartSlices(writers, 1, n, |writers|);
    IdsOfBoth([], writers[0..1]);
    assert writers[0..|writers|] == writers && writers[0..n] == writers[..n] && writers[n..|writers|] == writers[n..];
  }

  lemma FinishedHas(fs: seq<Finished>, f: Finished)
    requires f in fs
    ensures f.writer.id in FinishedIds(fs)
  {
  }

  lemma InGroup(group: seq<Writer>, ok: bool, f: Finished)
    requires f in Returned(group, ok)
    ensures f.ok == ok && f.writer.id in Ids(group)
  {
    var i :| 0 <= i < |group| && Returned(group, ok)[i] == f;
    assert group[i] in group;
  }

  lemma GroupFinished(finished: seq<Finished>, group: seq<Writer>, ok: bool)
    ensures FinishedIds(finished + Returned(group, ok)) == FinishedIds(finished) + Ids(group)
  {
    forall id ensures id in FinishedIds(finished + Returned(group, ok)) <==> id in FinishedIds(finished) + Ids(group) {
      if id in FinishedIds(finished) {
        var f :| f in finished && f.writer.id == id;
        assert f in finished + Returned(group, ok);
      }
      if id in Ids(group) {
        var i :| 0 <= i < |group| && group[i].id == id;
        assert Returned(group, ok)[i] in finished + Returned(group, ok);
      }
      if id in FinishedIds(finished + Returned(group, ok)) {
        var f :| f in finished + Returned(group, ok) && f.writer.id == id;
        if f !in finished {
          InGroup(group, ok, f);
        }
      }
    }
  }

  class WritePath {
    /** writers_ */
    var writers: seq<Writer>
    /** Size of the group being written while the mutex is released. */
    var leading: Option<nat>
    var pending: Record
    var outcome: Option<Outcome>
    var log: seq<Record>
    var lastSequence: nat
    var bgError: bool
    /** Where the threads are, by writer, and the `done` flags with their statuses. */
    var asleep: set<nat>
    var awake: set<nat>
    var leaders: set<nat>
    var done: map<nat, bool>
    /** Everyone who ever queued, everyone who was completed and how, what was returned, and for
        each log record whether its writers were told it succeeded. */
    ghost var queued: seq<Writer>
    ghost var finished: seq<Finished>
    ghost var returned: map<nat, bool>
    /** The writers for which MakeRoomForWrite was made to switch memtables. */
    ghost var forced: set<nat>
    ghost var good: seq<bool>

    ghost predicate Valid()
      reads this
    {
      && History(queued, finished, writers, leading, pending, outcome, log, good, lastSequence)
      && Threads(writers, finished, asleep, awake, leaders, done, returned)
      && Requests(finished, forced)
      && (leading.Some? ==> leaders != {})
    }

    constructor (lastSequence: nat)
      ensures Valid() && writers == [] && leading == None && log == [] && queued == [] && finished == [] && forced == {}
      ensures this.lastSequence == lastSequence && !bgError
    {
      writers, leading, pending, outcome, log, bgError := [], None, Record(1, []), None, [], false;
      this.lastSequence := lastSequence;
      asleep, awake, leaders, done := {}, {}, {}, map[];
      queued, finished, returned, forced, good := [], [], map[], {}, [];
    }

    /** A thread enters DB::Write; possible at any time. */
    method Enqueue(w: Writer)
      requires Valid() && forall v :: v in queued ==> v.id != w.id
      modifies this`writers, this`queued, this`awake
      ensures Valid() && writers == old(writers) + [w] && queued == old(queued) + [w] && awake == old(awake) + {w.id}
    {
      hide History, Threads, Requests;
      EnqueueHistory(queued, finished, writers, leading, pending, outcome, log, good, lastSequence, w);
      EnqueueThreads(writers, finished, asleep, awake, leaders, done, returned, w);
      writers := writers + [w];
      queued := queued + [w];
      awake := awake + {w.id};
    }

    /** The waiting loop's test, with the mutex held: a writer that is done returns with its
        status, the writer at the front goes on to lead, any other goes to sleep. */
    method Check(id: nat) returns (status: Option<bool>)
      requires Valid() && id in awake
      modifies this`asleep, this`awake, this`leaders, this`done, this`returned
      ensures Valid()
      ensures id in old(done) ==> status == Some(old(done[id])) && returned == old(returned)[id := old(done[id])] && id !in awake + asleep + leaders
      ensures id !in old(done) && writers != [] && writers[0].id == id ==> status == None && leaders == {id} && returned == old(returned)
      ensures id !in old(done) && !(writers != [] && writers[0].id == id) ==> status == None && id in asleep && leaders == old(leaders) && returned == old(returned)
    {
      hide History, Requests;
      status := None;
      if id in done {
        DoneReturns(writers, finished, asleep, awake, leaders, done, returned, id);
        status := Some(done[id]);
        returned := returned[id := done[id]];
        done, awake := done - {id}, awake - {id};
        return;
      }
      FrontLeads(writers, finished, asleep, awake, leaders, done, returned, id);
      awake := awake - {id};
      if writers[0].id == id {
        leaders := leaders + {id};
      } else {
        asleep := asleep + {id};
      }
    }

    /** Waking up without a signal. */
    method WakeSpuriously(id: nat)
      requires Valid() && id in asleep
      modifies this`asleep, this`awake
      ensures Valid() && asleep == old(asleep) - {id} && awake == old(awake) + {id}
    {
      hide History, Threads, Requests;
      Wakes(writers, finished, asleep, awake, leaders, done, returned, id);
      assert asleep * {id} == {id};
      Signal(id);
    }

    method Signal(id: nat)
      modifies this`asleep, this`awake
      ensures asleep == Left(old(asleep), {id}) && awake == Woken(old(asleep), old(awake), {id})
    {
      if id in asleep {
        asleep, awake := asleep - {id}, awake + {id};
      }
    }

    /** The leader, once MakeRoomForWrite has returned. A leader without a batch has made it
        force a new memtable. Without room, or with nothing to write, the leader leaves alone;
        otherwise it picks its group. */
    method Begin(id: nat, roomOk: bool)
      requires Valid() && id in leaders && leading.None? && (bgError ==> !roomOk)
      modifies this`writers, this`leading, this`pending, this`finished, this`done, this`asleep, this`awake, this`leaders, this`returned, this`forced
      ensures Valid() && old(writers) != [] && old(writers[0]).id == id
      ensures roomOk && old(writers[0]).batch.Some? ==>
                leading.Some? && IsGroup(writers, leading.value) && writers == old(writers) && finished == old(finished)
                && pending == Record(lastSequence + 1, Ops(writers[..leading.value]))
      ensures !(roomOk && old(writers[0]).batch.Some?) ==>
                leading.None? && writers == old(writers)[1..] && finished == old(finished) + [Finished(old(writers[0]), id, roomOk)]
                && returned == old(returned)[id := roomOk] && leaders == {}
      ensures forced == if roomOk && old(writers[0]).batch.None? then old(forced) + {id} else old(forced)
    {
      hide History, Threads, Requests, Returned, IsGroup, DistinctIds;
      LeaderInFront(writers, finished, asleep, awake, leaders, done, returned, id);
      HistoryDistinct(queued, finished, writers, leading, pending, outcome, log, good, lastSequence);
      var w := writers[0];
      if roomOk && w.batch.Some? {
        var n, updates := BuildBatchGroup(writers);
        BeginHistory(queued, finished, writers, pending, log, good, lastSequence, n);
        pending := Record(lastSequence + 1, updates);
        leading := Some(n);
      } else {
        LeaveHistory(queued, finished, writers, pending, log, good, lastSequence, roomOk);
        NoFollowers(writers, roomOk);
        NotFinished(writers, finished, asleep, awake, leaders, done, returned);
        LeaveRequests(finished, forced, w, roomOk);
        Return(1, roomOk);
        if roomOk {
          forced := forced + {id};
        }
      }
    }

    /** The part of the write that runs with the mutex released. */
    method Log(o: Outcome)
      requires Valid() && leading.Some? && outcome.None? && (o.SyncFailed? ==> writers != [] && writers[0].sync)
      modifies this`log, this`outcome, this`good
      ensures Valid() && outcome == Some(o)
      ensures log == if o.AppendFailed? then old(log) else old(log) + [pending]
    {
      hide History, Threads, Requests;
      LogHistory(queued, finished, writers, leading, pending, log, good, lastSequence, o);
      if !o.AppendFailed? {
        log := log + [pending];
        good := good + [o.Written?];
      }
      outcome := Some(o);
    }

    /** The leader completes everyone in its group, wakes them and the new front, and returns. */
    method Complete()
      requires Valid() && outcome.Some?
      modifies this
      ensures Valid() && leading.None? && log == old(log) && leaders == {}
      ensures old(leading).Some? && 1 <= old(leading).value <= |old(writers)|
      ensures writers == old(writers)[old(leading).value..]
      ensures finished == old(finished) + Returned(old(writers)[..old(leading).value], old(outcome).value.Written?)
      ensures returned == old(returned)[old(writers)[0].id := old(outcome).value.Written?]
      ensures lastSequence == old(lastSequence) + |old(pending).ops|
      ensures bgError == (old(bgError) || old(outcome).value.SyncFailed?)
      ensures forced == old(forced)
    {
      hide History, Threads, Requests, Returned, DistinctIds;
      var n, ok := SetLastSequence();
      NotFinished(writers, finished, asleep, awake, leaders, done, returned);
      GroupNotFinished(writers, finished, n);
      CompleteRequests(finished, forced, writers[..n], ok);
      Return(n, ok);
    }

    /** The sequence numbers of the group are used up, whatever became of it. */
    method SetLastSequence() returns (n: nat, ok: bool)
      requires Valid() && outcome.Some?
      modifies this`bgError, this`lastSequence, this`leading, this`outcome
      ensures old(leading) == Some(n) && ok == old(outcome).value.Written? && leading == None && outcome == None
      ensures 1 <= n <= |writers| && leaders != {} && DistinctIds(writers) && writers[0].batch.Some?
      ensures History(queued, finished + Returned(writers[..n], ok), writers[n..], leading, pending, outcome, log, good, lastSequence)
      ensures lastSequence == old(lastSequence) + |pending.ops|
      ensures bgError == (old(bgError) || old(outcome).value.SyncFailed?)
    {
      hide History, Threads, Requests, Returned, DistinctIds;
      HistoryDistinct(queued, finished, writers, leading, pending, outcome, log, good, lastSequence);
      n, ok := leading.value, outcome.value.Written?;
      CompleteHistory(queued, finished, writers, n, pending, outcome.value, log, good, lastSequence);
      if outcome.value.SyncFailed? {
        bgError := true;
      }
      lastSequence := lastSequence + |pending.ops|;
      leading, outcome := None, None;
    }

    /** The end of DB::Write: the group leaves the queue, who has to be is woken, and the leader
        returns. */
    method Return(n: nat, ok: bool)
      requires Threads(writers, finished, asleep, awake, leaders, done, returned) && DistinctIds(writers)
      requires leaders != {} && 1 <= n <= |writers|
      modifies this`writers, this`finished, this`done, this`asleep, this`awake, this`leaders, this`returned
      ensures Threads(writers, finished, asleep, awake, leaders, done, returned) && leaders == {}
      ensures writers == old(writers)[n..] && finished == old(finished) + Returned(old(writers)[..n], ok)
      ensures returned == old(returned)[old(writers)[0].id := ok]
    {
      hide Threads, Returned, Told, Left, Woken, Front, Ids, DistinctIds;
      CompleteThreads(writers, finished, asleep, awake, leaders, done, returned, n, ok);
      ghost var leader := writers[0].id;
      SignalBoth(asleep, awake, Ids(writers[1..n]), Front(writers[n..]));
      PopGroup(n, ok);
      Notify();
      leaders, returned := {}, returned[leader := ok];
    }

    /** Wakes the writer now at the front. */
    method Notify()
      modifies this`asleep, this`awake
      ensures asleep == Left(old(asleep), Front(writers)) && awake == Woken(old(asleep), old(awake), Front(writers))
    {
      if writers != [] {
        Signal(writers[0].id);
      }
    }

    /** Pops writers up to and including the last of the group; each but the leader is done, and
        is signalled. */
    method PopGroup(n: nat, ok: bool)
      requires 1 <= n <= |writers|
      modifies this`writers, this`finished, this`done, this`asleep, this`awake
      ensures writers == old(writers)[n..]
      ensures finished == old(finished) + Returned(old(writers)[..n], ok)
      ensures done == Told(old(done), old(writers)[1..n], ok)
      ensures asleep == Left(old(asleep), Ids(old(writers)[1..n])) && awake == Woken(old(asleep), old(awake), Ids(old(writers)[1..n]))
    {
      hide Returned, Told, Left, Woken, Ids;
      ghost var all := writers;
      var popped := 0;
      NothingPopped(all, ok, done, asleep, awake);
      while true
        invariant 0 <= popped < n && writers == all[popped..] && finished == old(finished) + Returned(all[..popped], ok)
        invariant done == Told(old(done), Followers(all, popped), ok)
        invariant asleep == Left(old(asleep), Ids(Followers(all, popped)))
        invariant awake == Woken(old(asleep), old(awake), Ids(Followers(all, popped)))
        decreases n - popped
      {
        OnePopped(all, popped, ok, old(done), old(asleep), old(awake));
        var ready := writers[0];
        writers := writers[1..];
        finished := finished + [Finished(ready, all[0].id, ok)];
        if popped > 0 {
          done := done[ready.id := ok];
          Signal(ready.id);
        }
        popped := popped + 1;
        if popped == n {
          break;
        }
      }
      assert Followers(all, n) == all[1..n];
    }

    /** No wake-up is lost: while a writer has not returned, one that can go on is not asleep. */
    lemma NoneIsLost()
      requires Valid()
      ensures writers != [] ==> writers[0].id in awake + leaders
      ensures forall id :: id in done ==> id in awake
      ensures forall w :: w in writers ==> w.id in asleep + awake + leaders
    {
      hide History;
      forall w | w in writers ensures w.id in Ids(writers) {
      }
    }

    /** Only the front writer logs: two threads are never past the test at once. */
    lemma OneLeader(i: nat, j: nat)
      requires Valid() && i in leaders && j in leaders
      ensures i == j && writers != [] && writers[0].id == i
    {
      hide History;
    }

    /** A request for a new memtable is met exactly if it leads and is let through: one that joins
        another's group is told that group's status, but nothing was done for it. */
    lemma RequestIsMet(f: Finished)
      requires Valid() && f in finished && f.writer.batch.None?
      ensures f.writer.id in forced <==> f.leader == f.writer.id && f.ok
    {
      hide History, Threads;
      assert f.writer.id in forced <==> f.writer.batch.None? && f.leader == f.writer.id && f.ok;
    }

    /** A writer's status is returned once, and is that of its group. */
    lemma EachIsTold(f: Finished)
      requires Valid() && f in finished
      ensures (f.writer.id in returned) != (f.writer.id in done)
      ensures (f.writer.id in returned ==> returned[f.writer.id] == f.ok) && (f.writer.id in done ==> done[f.writer.id] == f.ok)
    {
      hide History;
      FinishedHas(finished, f);
      assert Reported(f, done, returned);
    }
  }

  ghost function Followers(all: seq<Writer>, popped: nat): seq<Writer> {
    if popped <= 1 || popped > |all| then [] else all[1..popped]
  }

  lemma NothingPopped(all: seq<Writer>, ok: bool, done: map<nat, bool>, asleep: set<nat>, awake: set<nat>)
    ensures Returned(all[..0], ok) == []
    ensures Told(done, Followers(all, 0), ok) == done && Left(asleep, Ids(Followers(all, 0))) == asleep
    ensures Woken(asleep, awake, Ids(Followers(all, 0))) == awake
  {
    assert Ids([]) == {};
  }

  lemma OneReturned(all: seq<Writer>, popped: nat, ok: bool)
    requires popped < |all|
    ensures Returned(all[..popped + 1], ok) == Returned(all[..popped], ok) + [Finished(all[popped], all[0].id, ok)]
  {
  }

  lemma OnePopped(all: seq<Writer>, popped: nat, ok: bool, done: map<nat, bool>, asleep: set<nat>, awake: set<nat>)
    requires popped < |all|
    ensures Returned(all[..popped + 1], ok) == Returned(all[..popped], ok) + [Finished(all[popped], all[0].id, ok)]
    ensures
      var a, b, id := Followers(all, popped), Followers(all, popped + 1), all[popped].id;
      if popped == 0 then b == a
      else
        && Told(done, b, ok) == Told(done, a, ok)[id := ok]
        && Left(asleep, Ids(b)) == Left(Left(asleep, Ids(a)), {id})
        && Woken(asleep, awake, Ids(b)) == Woken(Left(asleep, Ids(a)), Woken(asleep, awake, Ids(a)), {id})
  {
    hide Ids, Left, Woken;
    var a, b, w := Followers(all, popped), Followers(all, popped + 1), all[popped];
    OneReturned(all, popped, ok);
    if popped > 0 {
      assert b == a + [w];
      IdsOfBoth(a, [w]);
      SignalBoth(asleep, awake, Ids(a), {w.id});
      assert Told(done, b, ok) == Told(done, a, ok)[w.id := ok];
    }
  }

  lemma NoFollowers(writers: seq<Writer>, ok: bool)
    requires writers != []
    ensures writers[..1] == [writers[0]] && Returned(writers[..1], ok) == [Finished(writers[0], writers[0].id, ok)]
  {
  }

  lemma LeaderInFront(writers: seq<Writer>, finished: seq<Finished>, asleep: set<nat>, awake: set<nat>, leaders: set<nat>,
                      done: map<nat, bool>, returned: map<nat, bool>, id: nat)
    requires Threads(writers, finished, asleep, awake, leaders, done, returned) && id in leaders
    ensures writers != [] && writers[0].id == id
  {
  }

  lemma NotFinished(writers: seq<Writer>, finished: seq<Finished>, asleep: set<nat>, awake: set<nat>, leaders: set<nat>,
                    done: map<nat, bool>, returned: map<nat, bool>)
    requires Threads(writers, finished, asleep, awake, leaders, done, returned)
    ensures FinishedIds(finished) !! Ids(writers) && forall w :: w in writers ==> w.id !in FinishedIds(finished)
  {
    hide FinishedIds, Reported;
  }

  lemma GroupNotFinished(writers: seq<Writer>, finished: seq<Finished>, n: nat)
    requires FinishedIds(finished) !! Ids(writers) && DistinctIds(writers) && n <= |writers|
    ensures FinishedIds(finished) !! Ids(writers[..n]) && DistinctIds(writers[..n])
  {
    hide FinishedIds;
    assert Ids(writers[..n]) <= Ids(writers);
  }

  lemma HistoryDistinct(queued: seq<Writer>, finished: seq<Finished>, writers: seq<Writer>, leading: Option<nat>, pending: Record,
                        outcome: Option<Outcome>, log: seq<Record>, good: seq<bool>, lastSequence: nat)
    requires History(queued, finished, writers, leading, pending, outcome, log, good, lastSequence)
    ensures DistinctIds(writers) && (outcome.Some? ==> leading.Some?) && (leading.None? ==> outcome.None?)
    ensures leading.Some? ==> writers != [] && writers[0].batch.Some?
  {
    hide Succeeded, OkOps, Ops, Disjoint;
    forall i, j | 0 <= i < j < |writers| ensures writers[i].id != writers[j].id {
      assert queued[|finished| + i] == writers[i] && queued[|finished| + j] == writers[j];
    }
  }

  // ----- what the history says -----

  ghost predicate Led(writers: seq<Writer>, n: nat)
    requires writers != []
  {
    1 <= n <= |writers| && forall i :: 0 <= i < n && writers[i].sync ==> writers[0].sync
  }

  function Names(fs: seq<Finished>): seq<Writer> {
    seq(|fs|, i requires 0 <= i < |fs| => fs[i].writer)
  }

  function Returned(ws: seq<Writer>, ok: bool): seq<Finished> {
    seq(|ws|, i requires 0 <= i < |ws| => Finished(ws[i], ws[0].id, ok))
  }

  /** The operations of the batches reported as written, in the order they returned. A
      writer with a null batch adds nothing. */
  function OkOps(fs: seq<Finished>): seq<Op> {
    if fs == [] then []
    else
      var f := fs[|fs| - 1];
      OkOps(fs[..|fs| - 1]) + if f.ok && f.writer.batch.Some? then f.writer.batch.value.ops else []
  }

  /** The operations of the log records reported as written, in log order. */
  function Succeeded(log: seq<Record>, good: seq<bool>): seq<Op>
    requires |log| == |good|
  {
    if log == [] then []
    else Succeeded(log[..|log| - 1], good[..|log| - 1]) + if good[|log| - 1] then log[|log| - 1].ops else []
  }

  /** Sequence numbers: records cover disjoint increasing ranges below `next`. */
  ghost predicate Disjoint(log: seq<Record>, next: nat) {
    (forall i, j :: 0 <= i < j < |log| ==> log[i].first + |log[i].ops| <= log[j].first)
    && forall i :: 0 <= i < |log| ==> 1 <= log[i].first && log[i].first + |log[i].ops| <= next
  }

  lemma OneMore(fs: seq<Finished>, f: Finished)
    ensures OkOps(fs + [f]) == OkOps(fs) + if f.ok && f.writer.batch.Some? then f.writer.batch.value.ops else []
    ensures Names(fs + [f]) == Names(fs) + [f.writer]
  {
    assert (fs + [f])[..|fs|] == fs;
  }

  lemma {:induction false} Leaves(fs: seq<Finished>, group: seq<Writer>, ok: bool)
    ensures OkOps(fs + Returned(group, ok)) == OkOps(fs) + if ok then Ops(group) else []
    ensures Names(fs + Returned(group, ok)) == Names(fs) + group
    decreases |group|
  {
    hide OkOps, Names;
    if group == [] {
      assert fs + Returned(group, ok) == fs;
    } else {
      var init, w := group[..|group| - 1], group[|group| - 1];
      Leaves(fs, init, ok);
      OneMore(fs + Returned(init, ok), Finished(w, group[0].id, ok));
      assert fs + Returned(group, ok) == fs + Returned(init, ok) + [Finished(w, group[0].id, ok)];
      assert Names(fs) + group == Names(fs) + init + [w];
      var mine := if w.batch.Some? then w.batch.value.ops else [];
      assert Ops(group) == Ops(init) + mine;
      assert OkOps(fs) + (Ops(init) + mine) == OkOps(fs) + Ops(init) + mine;
    }
  }
}
