/** What survives a crash: the write-ahead logs, the tables and the manifest, across
    memtable switches, flushes, manifest commits, file deletion, crashes and recovery.
    Every method is one step; the process may die between any two of them. */
module Durability {

  /** A write, by identity. */
  type Write = nat

  /** The last manifest record: logs numbered from `logNumber` on are still needed. */
  datatype Manifest = Manifest(logNumber: nat, tables: set<nat>, nextFile: nat)

  /** Everything a crash leaves. */
  datatype Disk = Disk(logs: map<nat, set<Write>>, tables: map<nat, set<Write>>, manifest: Manifest)

  ghost predicate InTables(tables: map<nat, set<Write>>, which: set<nat>, w: Write) {
    exists n :: n in which && n in tables && w in tables[n]
  }

  ghost predicate InLogs(logs: map<nat, set<Write>>, from: nat, w: Write) {
    exists l :: l in logs && l >= from && w in logs[l]
  }

  /** What recovery would bring back. */
  ghost predicate Recoverable(d: Disk, w: Write) {
    InTables(d.tables, d.manifest.tables, w) || InLogs(d.logs, d.manifest.logNumber, w)
  }

  datatype Option<T> = None | Some(value: T)

  /** The background thread: building the table of the immutable memtable, about to
      commit the edit, or committed but not yet installed. */
  datatype Background = Idle | Building(number: nat) | Edit(added: set<nat>, log: nat, next: nat) | Committed

  datatype Phase = Running | Crashed | Recovering

  // ----- steps that matter, as lemmas about the disk -----

  /** Writing a file outside a set of tables changes nothing in them. */
  lemma OtherTable(tables: map<nat, set<Write>>, n: nat, part: set<Write>, which: set<nat>, w: Write)
    requires n !in which
    ensures InTables(tables[n := part], which, w) <==> InTables(tables, which, w)
  {
    if InTables(tables, which, w) {
      var m :| m in which && m in tables && w in tables[m];
      assert m in tables[n := part] && w in tables[n := part][m];
    }
  }

  /** ... so a file the manifest does not name changes nothing that recovery brings back. */
  lemma NewTableKeeps(d: Disk, n: nat, part: set<Write>, w: Write)
    requires n !in d.manifest.tables
    ensures Recoverable(d.(tables := d.tables[n := part]), w) <==> Recoverable(d, w)
  {
    hide InTables;
    OtherTable(d.tables, n, part, d.manifest.tables, w);
  }

  lemma InOneTable(tables: map<nat, set<Write>>, n: nat)
    requires n in tables
    ensures forall w :: InTables(tables, {n}, w) <==> w in tables[n]
  {
    assert n in {n};
  }

  lemma NoTable(tables: map<nat, set<Write>>)
    ensures forall w :: !InTables(tables, {}, w)
  {
  }

  lemma BothTables(tables: map<nat, set<Write>>, a: set<nat>, b: set<nat>, w: Write)
    ensures InTables(tables, a + b, w) <==> InTables(tables, a, w) || InTables(tables, b, w)
  {
    if n :| n in a + b && n in tables && w in tables[n] {
      assert n in a || n in b;
    }
    if n :| (n in a || n in b) && n in tables && w in tables[n] {
      assert n in a + b;
    }
  }

  /** With nothing after it, a log is all there is from it on. */
  lemma OnlyLog(logs: map<nat, set<Write>>, l: nat)
    requires l in logs && forall k :: k in logs && k >= l ==> k <= l
    ensures forall w :: InLogs(logs, l, w) <==> w in logs[l]
  {
  }

  /** A log that grows, or a new one, brings just what is in it. */
  lemma LogGrowthKeeps(d: Disk, l: nat, content: set<Write>, w: Write)
    requires l in d.logs && l >= d.manifest.logNumber ==> d.logs[l] <= content
    requires l >= d.manifest.logNumber
    ensures Recoverable(d.(logs := d.logs[l := content]), w) <==> Recoverable(d, w) || w in content
  {
    var d' := d.(logs := d.logs[l := content]);
    if InLogs(d.logs, d.manifest.logNumber, w) {
      var m :| m in d.logs && m >= d.manifest.logNumber && w in d.logs[m];
      assert m in d'.logs && w in d'.logs[m];
    }
    if w in content {
      assert l in d'.logs && w in d'.logs[l];
    }
  }

  /** The commit point: moving the log number forward is safe when every log left behind
      is covered by the tables added in the same record. */
  lemma CommitKeeps(d: Disk, added: set<nat>, log: nat, next: nat, w: Write)
    requires Recoverable(d, w)
    requires forall l, v :: l in d.logs && d.manifest.logNumber <= l < log && v in d.logs[l] ==> InTables(d.tables, added, v)
    ensures Recoverable(d.(manifest := Manifest(log, d.manifest.tables + added, next)), w)
  {
    var d' := d.(manifest := Manifest(log, d.manifest.tables + added, next));
    if InTables(d.tables, d.manifest.tables, w) {
      var m :| m in d.manifest.tables && m in d.tables && w in d.tables[m];
      assert m in d'.manifest.tables;
    } else {
      var l :| l in d.logs && l >= d.manifest.logNumber && w in d.logs[l];
      if l < log {
        assert InTables(d.tables, added, w);
        var m :| m in added && m in d.tables && w in d.tables[m];
        assert m in d'.manifest.tables;
      }
    }
  }

  lemma CommitIs(d: Disk, added: set<nat>, log: nat, next: nat, w: Write)
    ensures Recoverable(d.(manifest := Manifest(log, d.manifest.tables + added, next)), w)
            <==> InTables(d.tables, d.manifest.tables, w) || InTables(d.tables, added, w) || InLogs(d.logs, log, w)
  {
    hide InTables, InLogs;
    BothTables(d.tables, d.manifest.tables, added, w);
  }

  /** After recovery nothing depends on the old logs: the record adds tables for all of them. */
  lemma RecoveryCommits(d: Disk, added: set<nat>, log: nat, next: nat, w: Write)
    requires Recoverable(d, w)
    requires forall l, v :: l in d.logs && l >= d.manifest.logNumber && v in d.logs[l] ==> InTables(d.tables, added, v)
    ensures InTables(d.tables, d.manifest.tables + added, w)
    ensures Recoverable(d.(manifest := Manifest(log, d.manifest.tables + added, next)), w)
  {
    if InTables(d.tables, d.manifest.tables, w) {
      var m :| m in d.manifest.tables && m in d.tables && w in d.tables[m];
      assert m in d.manifest.tables + added;
    } else {
      var l :| l in d.logs && l >= d.manifest.logNumber && w in d.logs[l];
      assert InTables(d.tables, added, w);
      var m :| m in added && m in d.tables && w in d.tables[m];
      assert m in d.manifest.tables + added;
    }
  }

  /** Deleting below the log number and outside the manifest's tables changes nothing that
      recovery brings back. */
  lemma DeleteKeeps(d: Disk, logs: set<nat>, tables: set<nat>, w: Write)
    requires (forall l :: l in logs ==> l < d.manifest.logNumber) && tables !! d.manifest.tables
    ensures Recoverable(d.(logs := d.logs - logs, tables := d.tables - tables), w) <==> Recoverable(d, w)
  {
    var d' := d.(logs := d.logs - logs, tables := d.tables - tables);
    FewerTables(d.tables, tables, d.manifest.tables, w);
    if InLogs(d.logs, d.manifest.logNumber, w) {
      var l :| l in d.logs && l >= d.manifest.logNumber && w in d.logs[l];
      assert l in d'.logs && w in d'.logs[l];
    }
  }

  lemma FewerTables(tables: map<nat, set<Write>>, gone: set<nat>, which: set<nat>, w: Write)
    requires gone !! which
    ensures InTables(tables - gone, which, w) <==> InTables(tables, which, w)
  {
    if InTables(tables, which, w) {
      var n :| n in which && n in tables && w in tables[n];
      assert n in tables - gone && w in (tables - gone)[n];
    }
  }

  class Database {
    var disk: Disk
    var phase: Phase
    // Volatile state.
    var logfileNumber: nat
    var nextFile: nat
    var mem: set<Write>
    var imm: Option<set<Write>>
    var inFlight: Option<set<Write>>
    var background: Background
    var pendingOutputs: set<nat>
    /** The current version: its tables and the version set's log number. */
    var versionTables: set<nat>
    var versionLog: nat
    // Recovery: logs still to replay, the edit being put together, the new log.
    var todo: set<nat>
    var recovered: set<nat>
    var logOpen: bool
    /** The disk as it was reopened, and the log each recovered table is made from. */
    ghost var reopened: Disk
    ghost var origin: map<nat, nat>
    /** Every write whose caller was told it succeeded. */
    ghost var acked: set<Write>

    ghost predicate Valid()
      reads this
    {
      DiskInv()
      && match phase
         case Running => RunningInv()
         case Crashed => true
         case Recovering => RecoveringInv()
    }

    ghost predicate DiskInv()
      reads this`disk, this`acked
    {
      && (forall w :: w in acked ==> Recoverable(disk, w))
      && disk.manifest.tables <= disk.tables.Keys
      && disk.manifest.logNumber <= disk.manifest.nextFile
      && (forall n :: n in disk.manifest.tables ==> n < disk.manifest.nextFile)
    }

    ghost predicate RunningInv()
      reads this
    {
      var m := disk.manifest;
      m.nextFile <= nextFile && m.logNumber <= logfileNumber < nextFile
      && logfileNumber in disk.logs
      && disk.logs[logfileNumber] == mem + (if inFlight.Some? then inFlight.value else {})
      && (forall l :: l in disk.logs && l >= m.logNumber ==> l <= logfileNumber)
      && (forall l :: l in disk.logs && m.logNumber <= l < logfileNumber ==> imm.Some? && disk.logs[l] <= imm.value)
      && BackgroundInv()
      && (forall w :: w in acked ==> Readable(w))
      && Exact()
    }

    /** A crash now would bring back what reads find, and the record in flight; nothing else. */
    ghost predicate Exact()
      reads this
    {
      forall w :: Recoverable(disk, w) <==> Readable(w) || (inFlight.Some? && w in inFlight.value)
    }

    ghost predicate BackgroundInv()
      reads this
    {
      var m := disk.manifest;
      (background != Idle ==> imm.Some?)
      && match background
         case Idle => versionTables == m.tables && versionLog == m.logNumber
         case Building(number) =>
           && versionTables == m.tables && versionLog == m.logNumber
           && number < nextFile && number !in m.tables && number in pendingOutputs
         case Edit(added, log, next) =>
           && versionTables == m.tables && versionLog == m.logNumber
           && log == logfileNumber < next && m.nextFile <= next <= nextFile && added <= disk.tables.Keys
           && (forall n :: n in added ==> n < next)
           && forall w :: w in imm.value <==> InTables(disk.tables, added, w)
         case Committed =>
           && m.logNumber == logfileNumber && versionTables <= m.tables
           && forall w :: w in imm.value ==> InTables(disk.tables, m.tables, w)
    }

    /** A reader finds the write: in a memtable or in a table of the current version. */
    ghost predicate Readable(w: Write)
      reads this
    {
      w in mem || (imm.Some? && w in imm.value) || InTables(disk.tables, versionTables, w)
    }

    ghost predicate RecoveringInv()
      reads this
    {
      var m := disk.manifest;
      Recovers(recovered, origin) && (forall w :: Recoverable(disk, w) <==> Recoverable(reopened, w))
      && m.nextFile <= nextFile && versionTables == m.tables && versionLog == m.logNumber
      && (logOpen ==> NewLogOpen())
    }

    /** A recovered table holds writes of one log that is still needed, tables follow the order of
        their logs, and what has been replayed is in them. */
    ghost predicate Recovers(recovered: set<nat>, origin: map<nat, nat>)
      reads this`disk, this`todo, this`nextFile, this`logOpen, this`logfileNumber
    {
      && recovered <= origin.Keys && recovered <= disk.tables.Keys
      && (forall n :: n in recovered ==> n < nextFile && MadeFrom(n, origin[n]))
      && (forall m, n :: m in recovered && n in recovered && m < n ==> origin[m] <= origin[n])
      && (forall l :: l in todo ==> l in disk.logs && l >= disk.manifest.logNumber && forall n :: n in recovered ==> origin[n] <= l)
      && forall l :: l in disk.logs && l >= disk.manifest.logNumber ==>
           l in todo || (logOpen && l == logfileNumber) || (l < nextFile && forall w :: w in disk.logs[l] ==> InTables(disk.tables, recovered, w))
    }

    ghost predicate MadeFrom(n: nat, l: nat)
      requires n in disk.tables
      reads this`disk
    {
      l in disk.logs && l >= disk.manifest.logNumber && disk.tables[n] <= disk.logs[l]
    }

    ghost predicate NewLogOpen()
      reads this`disk, this`todo, this`logfileNumber, this`nextFile
    {
      todo == {} && logfileNumber in disk.logs && disk.logs[logfileNumber] == {}
      && disk.manifest.logNumber <= logfileNumber < nextFile
      && forall l :: l in disk.logs && l >= disk.manifest.logNumber ==> l <= logfileNumber
    }

    /** A new database, as NewDB leaves it; it is opened like any other. */
    constructor ()
      ensures Valid() && phase == Crashed && acked == {}
    {
      disk := Disk(map[], map[], Manifest(0, {}, 2));
      phase, logfileNumber, nextFile := Crashed, 0, 0;
      mem, imm, inFlight, background, pendingOutputs := {}, None, None, Idle, {};
      versionTables, versionLog, todo, recovered, logOpen, acked := {}, 0, {}, {}, false, {};
      reopened, origin := Disk(map[], map[], Manifest(0, {}, 2)), map[];
    }

    // ----- writing -----

    /** The log record of a group of writes reaches the current log file. */
    method Append(batch: set<Write>)
      requires Valid() && phase.Running? && inFlight.None?
      modifies this`disk, this`inFlight
      ensures Valid() && inFlight == Some(batch)
      ensures disk == old(disk).(logs := old(disk).logs[logfileNumber := old(disk).logs[logfileNumber] + batch])
    {
      hide InTables, InLogs, Recoverable;
      ghost var content := disk.logs[logfileNumber] + batch;
      forall w ensures Recoverable(disk.(logs := disk.logs[logfileNumber := content]), w) <==> Recoverable(disk, w) || w in content {
        LogGrowthKeeps(disk, logfileNumber, content, w);
      }
      assert forall w :: w in mem ==> Readable(w);
      assert forall w :: Readable(w) <==> Recoverable(disk, w);
      disk := disk.(logs := disk.logs[logfileNumber := disk.logs[logfileNumber] + batch]);
      inFlight := Some(batch);
      assert forall w :: Readable(w) <==> old(Readable(w));
    }

    /** ... and the memtable, and the writers are told. */
    method Acknowledge()
      requires Valid() && phase.Running? && inFlight.Some?
      modifies this`mem, this`inFlight, this`acked
      ensures Valid() && acked == old(acked) + old(inFlight).value
    {
      hide InTables, InLogs, Recoverable;
      assert forall w :: w in inFlight.value ==> Recoverable(disk, w);
      mem := mem + inFlight.value;
      acked := acked + inFlight.value;
      inFlight := None;
      assert forall w :: Readable(w) <==> old(Readable(w)) || w in old(inFlight).value;
    }

    /** MakeRoomForWrite: a new log and memtable; the full one becomes immutable. */
    method SwitchMemtable()
      requires Valid() && phase.Running? && imm.None? && inFlight.None?
      modifies this`disk, this`nextFile, this`logfileNumber, this`imm, this`mem
      ensures Valid() && imm == Some(old(mem)) && mem == {} && logfileNumber == old(nextFile)
    {
      hide InTables, InLogs, Recoverable;
      var number := nextFile;
      nextFile := nextFile + 1;
      forall w ensures Recoverable(disk.(logs := disk.logs[number := {}]), w) <==> Recoverable(disk, w) {
        LogGrowthKeeps(disk, number, {}, w);
      }
      disk := disk.(logs := disk.logs[number := {}]);
      logfileNumber := number;
      imm := Some(mem);
      mem := {};
      assert forall w :: Readable(w) <==> old(Readable(w));
    }

    // ----- CompactMemTable -----

    method StartFlush()
      requires Valid() && phase.Running? && imm.Some? && background.Idle?
      modifies this`nextFile, this`pendingOutputs, this`background
      ensures Valid() && background == Building(old(nextFile)) && nextFile == old(nextFile) + 1
    {
      background := Building(nextFile);
      pendingOutputs := pendingOutputs + {nextFile};
      nextFile := nextFile + 1;
    }

    /** Some of the table file has been written. */
    method WriteTablePart(part: set<Write>)
      requires Valid() && phase.Running? && background.Building?
      modifies this`disk
      ensures Valid() && disk == old(disk).(tables := old(disk).tables[background.number := part])
    {
      WriteTable(background.number, part);
    }

    method WriteTable(number: nat, part: set<Write>)
      requires Valid() && number !in disk.manifest.tables && (phase.Running? ==> background.Building?) && (phase.Recovering? ==> number !in recovered)
      modifies this`disk
      ensures Valid() && disk == old(disk).(tables := old(disk).tables[number := part])
    {
      hide InTables, InLogs, Recoverable;
      forall w ensures Recoverable(disk.(tables := disk.tables[number := part]), w) <==> Recoverable(disk, w) {
        NewTableKeeps(disk, number, part, w);
      }
      ghost var before := disk.tables;
      forall w, which | number !in which ensures InTables(before[number := part], which, w) <==> InTables(before, which, w) {
        OtherTable(before, number, part, which, w);
      }
      disk := disk.(tables := disk.tables[number := part]);
      assert phase.Running? ==> forall w :: Readable(w) <==> old(Readable(w));
    }

    /** BuildTable: the table holds the whole memtable, or the memtable was empty and the file
        is gone again. */
    method BuildTable() returns (added: set<nat>)
      requires Valid() && phase.Running? && background.Building?
      modifies this`disk
      ensures Valid() && added <= {background.number} && added <= disk.tables.Keys
      ensures forall w :: w in imm.value <==> InTables(disk.tables, added, w)
    {
      hide InTables, InLogs, Recoverable;
      if imm.value == {} {
        NoTable(disk.tables);
        added := {};
      } else {
        WriteTable(background.number, imm.value);
        InOneTable(disk.tables, background.number);
        added := {background.number};
      }
    }

    /** ... and the edit adds it, and moves the log number to the current log. */
    method FinishTable()
      requires Valid() && phase.Running? && background.Building?
      modifies this`disk, this`pendingOutputs, this`background
      ensures Valid() && background.Edit? && background.log == logfileNumber
    {
      hide InTables, InLogs, Recoverable;
      var added := BuildTable();
      pendingOutputs := pendingOutputs - {background.number};
      background := Edit(added, logfileNumber, nextFile);
    }

    /** The manifest record is durable. */
    method CommitManifest()
      requires Valid() && phase.Running? && background.Edit?
      modifies this`disk, this`background
      ensures Valid() && background == Committed
      ensures disk.manifest == Manifest(logfileNumber, old(disk).manifest.tables + old(background).added, old(background).next)
    {
      hide InTables, InLogs, Recoverable;
      var d, added := disk, background.added;
      forall w
        ensures Recoverable(d, w) ==> Recoverable(d.(manifest := Manifest(logfileNumber, d.manifest.tables + added, background.next)), w)
        ensures Recoverable(d.(manifest := Manifest(logfileNumber, d.manifest.tables + added, background.next)), w)
                <==> InTables(d.tables, d.manifest.tables, w) || InTables(d.tables, added, w) || InLogs(d.logs, logfileNumber, w)
      {
        if Recoverable(d, w) {
          CommitKeeps(d, added, logfileNumber, background.next, w);
        }
        CommitIs(d, added, logfileNumber, background.next, w);
      }
      forall w ensures InTables(d.tables, added, w) ==> InTables(d.tables, d.manifest.tables + added, w) {
        BothTables(d.tables, d.manifest.tables, added, w);
      }
      OnlyLog(d.logs, logfileNumber);
      disk := d.(manifest := Manifest(background.log, d.manifest.tables + added, background.next));
      background := Committed;
      assert forall w :: Readable(w) <==> old(Readable(w));
    }

    /** The new version becomes current and the immutable memtable is dropped. */
    method Install()
      requires Valid() && phase.Running? && background == Committed
      modifies this`versionTables, this`versionLog, this`imm, this`background
      ensures Valid() && background == Idle && imm == None
      ensures versionTables == disk.manifest.tables && versionLog == disk.manifest.logNumber
    {
      OnlyLog(disk.logs, logfileNumber);
      versionTables, versionLog := disk.manifest.tables, disk.manifest.logNumber;
      imm, background := None, Idle;
      assert forall w :: w in acked ==> old(Readable(w));
      forall w | w in acked && old(InTables(disk.tables, versionTables, w)) ensures InTables(disk.tables, versionTables, w) {
        var n :| n in old(versionTables) && n in disk.tables && w in disk.tables[n];
      }
    }

    /** DeleteObsoleteFiles: the logs behind the version's log number and the tables that are
        neither in the version nor being written. */
    method DeleteObsolete()
      requires Valid() && phase.Running? && background == Idle
      modifies this`disk
      ensures Valid() && disk.manifest == old(disk).manifest
      ensures forall l :: l in disk.logs <==> l in old(disk).logs && l >= versionLog
      ensures forall n :: n in disk.tables <==> n in old(disk).tables && (n in versionTables || n in pendingOutputs)
      ensures forall l :: l in disk.logs ==> disk.logs[l] == old(disk).logs[l]
      ensures forall n :: n in disk.tables ==> disk.tables[n] == old(disk).tables[n]
    {
      var logs := set l | l in disk.logs && l < versionLog;
      var tables := set n | n in disk.tables && n !in versionTables + pendingOutputs;
      RemoveFiles(logs, tables);
    }

    /** Any of those files, so that a crash may come between two removals. */
    method RemoveFiles(logs: set<nat>, tables: set<nat>)
      requires Valid() && phase.Running? && background == Idle
      requires forall l :: l in logs ==> l < versionLog
      requires tables !! versionTables + pendingOutputs
      modifies this`disk
      ensures Valid() && disk == old(disk).(logs := old(disk).logs - logs, tables := old(disk).tables - tables)
    {
      hide InTables, InLogs, Recoverable;
      forall w
        ensures Recoverable(disk.(logs := disk.logs - logs, tables := disk.tables - tables), w) <==> Recoverable(disk, w)
        ensures InTables(disk.tables - tables, versionTables, w) <==> InTables(disk.tables, versionTables, w)
      {
        DeleteKeeps(disk, logs, tables, w);
        FewerTables(disk.tables, tables, versionTables, w);
      }
      disk := disk.(logs := disk.logs - logs, tables := disk.tables - tables);
      assert forall w :: Readable(w) <==> old(Readable(w));
    }

    // ----- crash and recovery -----

    /** The process dies, at any step: nothing volatile is left. */
    method Crash()
      requires Valid()
      modifies this`phase, this`mem, this`imm, this`inFlight, this`background, this`pendingOutputs
      ensures Valid() && phase == Crashed && disk == old(disk) && acked == old(acked)
    {
      phase, mem, imm, inFlight, background, pendingOutputs := Crashed, {}, None, None, Idle, {};
    }

    /** VersionSet::Recover, and the logs to replay. */
    method Reopen()
      requires Valid() && phase.Crashed?
      modifies this`phase, this`nextFile, this`versionTables, this`versionLog, this`todo, this`recovered, this`logOpen
      modifies this`reopened, this`origin
      ensures Valid() && phase == Recovering && !logOpen && reopened == disk
    {
      hide InTables, InLogs, Recoverable, RunningInv, RecoveringInv, DiskInv;
      var m := disk.manifest;
      nextFile := m.nextFile + 1;
      versionTables, versionLog := m.tables, m.logNumber;
      todo := set l | l in disk.logs && l >= m.logNumber;
      recovered, logOpen, phase := {}, false, Recovering;
      reopened, origin := disk, map[];
      StartsRecovering();
    }

    lemma StartsRecovering()
      requires DiskInv() && !logOpen && recovered == {} && origin == map[] && reopened == disk && nextFile == disk.manifest.nextFile + 1
      requires versionTables == disk.manifest.tables && versionLog == disk.manifest.logNumber
      requires todo == set l | l in disk.logs && l >= disk.manifest.logNumber
      ensures RecoveringInv()
    {
      hide InTables, Recoverable;
    }

    /** RecoverLogFile on the oldest log left: its writes go to level-0 tables, in chunks
        of any size. */
    method ReplayLog(l: nat, chunks: seq<set<Write>>)
      requires Valid() && phase.Recovering? && !logOpen && l in todo && (forall k :: k in todo ==> l <= k)
      requires forall w :: w in disk.logs[l] <==> exists i :: 0 <= i < |chunks| && w in chunks[i]
      modifies this`disk, this`nextFile, this`recovered, this`todo, this`origin
      ensures Valid() && todo == old(todo) - {l} && disk.logs == old(disk).logs && disk.manifest == old(disk).manifest
      ensures forall w :: InTables(disk.tables, recovered, w) <==> InTables(old(disk).tables, old(recovered), w) || w in disk.logs[l]
    {
      hide InTables, InLogs, Recoverable, RunningInv, RecoveringInv, DiskInv;
      OldestLog(l);
      var i := 0;
      while i < |chunks|
        invariant 0 <= i <= |chunks|
        invariant Valid() && phase.Recovering? && !logOpen && todo == old(todo)
        invariant disk.logs == old(disk).logs && disk.manifest == old(disk).manifest
        invariant forall w :: InTables(disk.tables, recovered, w) <==>
                    InTables(old(disk).tables, old(recovered), w) || exists j :: 0 <= j < i && w in chunks[j]
      {
        assert chunks[i] <= disk.logs[l];
        WriteLevel0Table(chunks[i], l);
        i := i + 1;
      }
      LeaveLog(l);
    }

    lemma OldestLog(l: nat)
      requires RecoveringInv() && l in todo
      ensures l in disk.logs
    {
    }

    /** A log that is wholly in tables need not be kept in mind, but its number. */
    method LeaveLog(l: nat)
      requires Valid() && phase.Recovering? && !logOpen && l in todo
      requires l in disk.logs && forall w :: w in disk.logs[l] ==> InTables(disk.tables, recovered, w)
      modifies this`todo, this`nextFile
      ensures Valid() && todo == old(todo) - {l}
    {
      hide InTables, InLogs, Recoverable, RunningInv;
      todo := todo - {l};
      if nextFile <= l {
        nextFile := l + 1;
      }
    }

    method NewFileNumber() returns (number: nat)
      requires Valid() && phase.Recovering? && !logOpen
      modifies this`nextFile
      ensures Valid() && number < nextFile && number !in recovered && number !in disk.manifest.tables && forall n :: n in recovered ==> n < number
    {
      hide InTables, InLogs, Recoverable, RunningInv;
      number := nextFile;
      nextFile := nextFile + 1;
    }

    method WriteLevel0Table(chunk: set<Write>, ghost l: nat)
      requires Valid() && phase.Recovering? && !logOpen && l in todo && (forall k :: k in todo ==> l <= k)
      requires l in disk.logs && chunk <= disk.logs[l]
      modifies this`disk, this`nextFile, this`recovered, this`origin
      ensures Valid() && disk.logs == old(disk).logs && disk.manifest == old(disk).manifest
      ensures forall w :: InTables(disk.tables, recovered, w) <==> w in chunk || InTables(old(disk).tables, old(recovered), w)
    {
      hide InTables, InLogs, Recoverable, RunningInv, Recovers, DiskInv, MadeFrom;
      var number := NewFileNumber();
      ghost var before := disk.tables;
      WriteTable(number, chunk);
      forall w ensures InTables(disk.tables, recovered + {number}, w) <==> w in chunk || InTables(before, recovered, w) {
        OtherTable(before, number, chunk, recovered, w);
        InOneTable(disk.tables, number);
        BothTables(disk.tables, recovered, {number}, w);
      }
      AddsTable(number, l);
      recovered := recovered + {number};
      origin := origin[number := l];
    }

    lemma AddsTable(number: nat, l: nat)
      requires Recovers(recovered, origin) && number !in recovered && number in disk.tables && number < nextFile && l in todo && !logOpen
      requires (forall k :: k in todo ==> l <= k) && disk.tables[number] <= disk.logs[l] && forall n :: n in recovered ==> n < number
      ensures Recovers(recovered + {number}, origin[number := l])
    {
      hide InTables;
      forall w ensures InTables(disk.tables, recovered, w) ==> InTables(disk.tables, recovered + {number}, w) {
        BothTables(disk.tables, recovered, {number}, w);
      }
    }

    /** DB::Open makes a fresh log once every old one is replayed ... */
    method OpenLog()
      requires Valid() && phase.Recovering? && !logOpen && todo == {}
      modifies this`disk, this`nextFile, this`logfileNumber, this`logOpen
      ensures Valid() && logOpen
    {
      hide InTables, InLogs, Recoverable;
      var number := nextFile;
      nextFile := nextFile + 1;
      forall w ensures Recoverable(disk.(logs := disk.logs[number := {}]), w) <==> Recoverable(disk, w) {
        LogGrowthKeeps(disk, number, {}, w);
      }
      disk := disk.(logs := disk.logs[number := {}]);
      logfileNumber, logOpen := number, true;
    }

    /** ... and commits the recovery edit. From here on reads are served, and they find
        everything ever acknowledged; all in all just what the disk held that was reopened. */
    method CommitRecovery()
      requires Valid() && phase.Recovering? && logOpen
      modifies this`disk, this`versionTables, this`versionLog, this`phase
      modifies this`mem, this`imm, this`inFlight, this`background, this`pendingOutputs
      ensures Valid() && phase == Running && acked == old(acked)
      ensures forall w :: w in acked ==> InTables(disk.tables, versionTables, w)
      ensures forall w :: InTables(disk.tables, versionTables, w) <==> Recoverable(old(reopened), w)
    {
      hide *;
      ApplyRecovered();
      Serve();
    }

    /** Empty memtables, and an idle background thread. */
    method Serve()
      requires DiskInv() && NewLogOpen() && disk.manifest.logNumber == logfileNumber && disk.manifest.nextFile <= nextFile
      requires versionTables == disk.manifest.tables && versionLog == disk.manifest.logNumber
      requires forall w :: w in acked ==> InTables(disk.tables, versionTables, w)
      modifies this`phase, this`mem, this`imm, this`inFlight, this`background, this`pendingOutputs
      ensures Valid() && phase == Running
    {
      hide InTables, InLogs, RecoveringInv;
      OnlyLog(disk.logs, logfileNumber);
      mem, imm, inFlight, background, pendingOutputs, phase := {}, None, None, Idle, {}, Running;
    }

    /** LogAndApply on the recovery edit: the new record leaves the old logs behind. */
    method ApplyRecovered()
      requires Valid() && phase.Recovering? && logOpen
      modifies this`disk, this`versionTables, this`versionLog
      ensures DiskInv()
      ensures forall w :: w in acked ==> InTables(disk.tables, versionTables, w)
      ensures forall w :: InTables(disk.tables, versionTables, w) <==> Recoverable(reopened, w)
      ensures NewLogOpen() && disk.manifest.logNumber == logfileNumber && disk.manifest.nextFile <= nextFile
      ensures versionTables == disk.manifest.tables && versionLog == disk.manifest.logNumber
    {
      hide InTables, InLogs, Recoverable;
      var d := disk;
      OldLogsCovered();
      forall w | w in acked
        ensures InTables(d.tables, d.manifest.tables + recovered, w)
        ensures Recoverable(d.(manifest := Manifest(logfileNumber, d.manifest.tables + recovered, nextFile)), w)
      {
        RecoveryCommits(d, recovered, logfileNumber, nextFile, w);
      }
      forall w ensures InTables(d.tables, d.manifest.tables + recovered, w) <==> Recoverable(reopened, w) {
        AllIsRecovered(w);
      }
      disk := d.(manifest := Manifest(logfileNumber, d.manifest.tables + recovered, nextFile));
      versionTables, versionLog := disk.manifest.tables, disk.manifest.logNumber;
    }

    /** Recovery adds nothing: what it has put in tables is in logs that are still needed. */
    lemma RecoversNoMore()
      requires Valid() && phase.Recovering?
      ensures forall w :: InTables(disk.tables, recovered, w) ==> InLogs(disk.logs, disk.manifest.logNumber, w)
      ensures forall w :: Recoverable(disk, w) <==> Recoverable(reopened, w)
    {
      hide Recoverable;
      forall w | InTables(disk.tables, recovered, w) ensures InLogs(disk.logs, disk.manifest.logNumber, w) {
        var n :| n in recovered && n in disk.tables && w in disk.tables[n];
        assert MadeFrom(n, origin[n]);
      }
    }

    /** ... and tables with higher numbers, which win in a read, come from later logs. */
    lemma LaterLogsWin(m: nat, n: nat) returns (k: nat, l: nat)
      requires Valid() && phase.Recovering? && m in recovered && n in recovered && m < n
      ensures m in disk.tables && n in disk.tables && k in disk.logs && l in disk.logs
      ensures disk.manifest.logNumber <= k <= l && disk.tables[m] <= disk.logs[k] && disk.tables[n] <= disk.logs[l]
    {
      hide Recoverable;
      k, l := origin[m], origin[n];
      assert MadeFrom(m, k) && MadeFrom(n, l);
    }

    lemma AllIsRecovered(w: Write)
      requires Valid() && phase.Recovering? && logOpen
      ensures InTables(disk.tables, disk.manifest.tables + recovered, w) <==> Recoverable(reopened, w)
    {
      RecoversNoMore();
      OldLogsCovered();
      BothTables(disk.tables, disk.manifest.tables, recovered, w);
    }

    lemma OldLogsCovered()
      requires Valid() && phase.Recovering? && logOpen
      ensures forall l, v :: l in disk.logs && l >= disk.manifest.logNumber && v in disk.logs[l] ==> InTables(disk.tables, recovered, v)
    {
    }
  }
}
