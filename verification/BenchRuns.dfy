/**
  Whole lives of the benchmark job manager: operations, crashes between any two file writes,
  restarts, and crashes during restarts.
 */
module BenchRuns {
  import opened Options
  import opened BenchState
  import opened BenchHistory
  import opened BenchSafety

  // --- Running jobs -----------------------------------------------------------------------------

  lemma {:induction false} RunningIs(jobs: seq<Job>)
    ensures forall job :: job in RunningJobs(jobs) <==> job in jobs && job.status == Running
  {
    if jobs != [] {
      RunningIs(jobs[..|jobs| - 1]);
      assert jobs == jobs[..|jobs| - 1] + [jobs[|jobs| - 1]];
    }
  }

  /** Running jobs have different Sparks and different ids. */
  predicate Exclusive(jobs: seq<Job>) {
    forall i, j :: 0 <= i < j < |jobs| && jobs[i].status == Running && jobs[j].status == Running ==>
      jobs[i].spark != jobs[j].spark && jobs[i].id != jobs[j].id
  }

  lemma {:induction false} RunningOnePerSpark(jobs: seq<Job>)
    requires Exclusive(jobs)
    ensures OnePerSpark(RunningJobs(jobs))
  {
    if jobs != [] {
      var rest, last := jobs[..|jobs| - 1], jobs[|jobs| - 1];
      RunningOnePerSpark(rest);
      RunningIs(rest);
      forall i | 0 <= i < |RunningJobs(rest)| && last.status == Running
        ensures RunningJobs(rest)[i].spark != last.spark
      {
        assert RunningJobs(rest)[i] in rest;
        var k :| 0 <= k < |rest| && rest[k] == RunningJobs(rest)[i];
        assert jobs[k] == rest[k];
      }
    }
  }

  lemma SameRunning(jobs: seq<Job>, a: Job, b: Job)
    requires Exclusive(jobs) && a in jobs && b in jobs && a.status == Running && b.status == Running
    requires a.spark == b.spark || a.id == b.id
    ensures a == b
  {
    var i :| 0 <= i < |jobs| && jobs[i] == a;
    var j :| 0 <= j < |jobs| && jobs[j] == b;
  }

  lemma {:induction false} WithStatusAt(jobs: seq<Job>, id: string, status: Status)
    ensures |WithStatus(jobs, id, status)| == |jobs|
    ensures forall i :: 0 <= i < |jobs| ==>
              WithStatus(jobs, id, status)[i] == if jobs[i].id == id then jobs[i].(status := status) else jobs[i]
  {
    if jobs != [] { WithStatusAt(jobs[..|jobs| - 1], id, status); }
  }

  /** A job that is not running any more: the others run on. */
  lemma StopsOne(jobs: seq<Job>, id: string, status: Status)
    requires Exclusive(jobs) && status != Running
    ensures Exclusive(WithStatus(jobs, id, status))
    ensures forall job: Job :: job.status == Running ==>
              (job in WithStatus(jobs, id, status) <==> job in jobs && job.id != id)
  {
    WithStatusAt(jobs, id, status);
    var after := WithStatus(jobs, id, status);
    forall job: Job | job.status == Running ensures job in after <==> job in jobs && job.id != id {
      if job in jobs && job.id != id {
        var i :| 0 <= i < |jobs| && jobs[i] == job;
        assert after[i] == job;
      }
      if job in after {
        var i :| 0 <= i < |after| && after[i] == job;
        assert jobs[i] == job;
      }
    }
  }

  lemma {:induction false} RemainingExclusive(jobs: seq<Job>, spark: string, port: Option<int>)
    requires Exclusive(jobs)
    ensures Exclusive(Remaining(jobs, spark, port, false))
  {
    if jobs != [] {
      var tail := jobs[1..];
      forall i, j | 0 <= i < j < |tail| && tail[i].status == Running && tail[j].status == Running
        ensures tail[i].spark != tail[j].spark && tail[i].id != tail[j].id
      {
        assert tail[i] == jobs[i + 1] && tail[j] == jobs[j + 1];
      }
      RemainingExclusive(tail, spark, port);
      RemainingIs(tail, spark, port, false);
      var rest := Remaining(tail, spark, port, false);
      forall j | 0 <= j < |rest| && jobs[0].status == Running && rest[j].status == Running
        ensures jobs[0].spark != rest[j].spark && jobs[0].id != rest[j].id
      {
        assert rest[j] in tail;
        var k :| 0 <= k < |tail| && tail[k] == rest[j];
        assert jobs[k + 1] == rest[j];
      }
    }
  }

  // --- A running manager ------------------------------------------------------------------------

  predicate RunsAs(jobs: seq<Job>, a: Job) {
    exists job :: job in jobs && job.status == Running && job.spark == a.spark && job.id == a.id
  }

  predicate RunsOn(jobs: seq<Job>, spark: string) {
    exists job :: job in jobs && job.status == Running && job.spark == spark
  }

  predicate Unfinished(jobs: seq<Job>, book: Book) {
    forall job :: job in jobs && job.status == Running ==> job.id !in FinishedOf(book, job.spark)
  }

  /** Memory and files agree: the checkpoint lists running jobs only, and the history is saved. */
  ghost predicate UpOk(m: Memory, disk: Disk, tickets: set<Ticket>) {
    && BookOk(m.book) && SameBook(m.book, disk.book) && DiskOk(disk, tickets)
    && Exclusive(m.jobs) && Unfinished(m.jobs, m.book)
    && (forall a :: a in disk.active ==> RunsAs(m.jobs, a))
    && (forall s :: s in m.active <==> RunsOn(m.jobs, s))
  }

  /** Every ticket is finished or runs. */
  ghost predicate Live(jobs: seq<Job>, book: Book, tickets: set<Ticket>) {
    forall t :: t in tickets ==>
      t.id in FinishedOf(book, t.spark)
        || exists job :: job in jobs && job.status == Running && job.spark == t.spark && job.id == t.id
  }

  lemma UpIsLive(m: Memory, disk: Disk, tickets: set<Ticket>)
    requires UpOk(m, disk, tickets)
    ensures Live(m.jobs, m.book, tickets)
  {
    hide BookOk;
    forall t | t in tickets
      ensures t.id in FinishedOf(m.book, t.spark)
              || exists job :: job in m.jobs && job.status == Running && job.spark == t.spark && job.id == t.id
    {
      assert FinishedOf(m.book, t.spark) == FinishedOf(disk.book, t.spark);
      if Lists(disk.active, t) {
        var a :| a in disk.active && a.spark == t.spark && a.id == t.id;
        assert RunsAs(m.jobs, a);
      }
    }
  }

  /** A checkpoint of the running jobs is a disk that a restart can work with. */
  lemma CheckpointOk(m: Memory, disk: Disk, tickets: set<Ticket>)
    requires BookOk(m.book) && SameBook(m.book, disk.book) && Exclusive(m.jobs) && Unfinished(m.jobs, m.book)
    requires Live(m.jobs, m.book, tickets)
    requires forall s :: s in m.active <==> RunsOn(m.jobs, s)
    ensures UpOk(m, disk.(active := RunningJobs(m.jobs)), tickets)
  {
    hide SparkOk;
    var running, after := RunningJobs(m.jobs), disk.(active := RunningJobs(m.jobs));
    RunningIs(m.jobs);
    RunningOnePerSpark(m.jobs);
    SameBookOk(m.book, disk.book);
    forall job | job in running ensures NewOrHead(disk.book, job) {
      assert FinishedOf(m.book, job.spark) == FinishedOf(disk.book, job.spark);
    }
    forall t | t in tickets ensures t.id in FinishedOf(after.book, t.spark) || Lists(running, t) {
      assert FinishedOf(m.book, t.spark) == FinishedOf(disk.book, t.spark);
    }
    forall a | a in running ensures RunsAs(m.jobs, a) {
    }
  }

  // --- Operations -------------------------------------------------------------------------------

  datatype Operation =
    | Start(id: string, spark: string, port: int)
    | Checkpoint
    | Finish(job: Job, status: Status)
    | Clear(spark: string, onlyPort: Option<int>)

  /** Fresh ids are random; a job finishes once, when it runs. */
  ghost predicate Enabled(m: Memory, op: Operation) {
    match op
    case Start(id, _, _) => !Has(m.jobs, id) && forall s :: id !in FinishedOf(m.book, s)
    case Checkpoint => true
    case Finish(job, status) => job in m.jobs && job.status == Running && status != Running
    case Clear(_, _) => true
  }

  function OutcomeOf(m: Memory, op: Operation): Outcome {
    match op
    case Start(id, spark, port) => Started(m, id, spark, port)
    case Checkpoint => Checkpointed(m)
    case Finish(job, status) => Finished(m, job, status)
    case Clear(spark, port) => Cleared(m, spark, port)
  }

  /** A start that was accepted hands out a ticket when it returns. */
  function TicketsAfter(m: Memory, op: Operation, tickets: set<Ticket>): set<Ticket> {
    if op.Start? && op.spark !in m.active then tickets + {Ticket(op.spark, op.id)} else tickets
  }

  lemma StartKeepsOk(m: Memory, disk: Disk, tickets: set<Ticket>, id: string, spark: string, port: int)
    requires UpOk(m, disk, tickets) && Enabled(m, Start(id, spark, port)) && spark !in m.active
    ensures var after := m.(jobs := m.jobs + [Job(id, spark, port, Running)], active := m.active[spark := id]);
            UpOk(after, disk.(active := RunningJobs(after.jobs)), tickets + {Ticket(spark, id)})
  {
    hide BookOk, DiskOk, SameBook;
    var job := Job(id, spark, port, Running);
    var after := m.(jobs := m.jobs + [job], active := m.active[spark := id]);
    UpIsLive(m, disk, tickets);
    assert !RunsOn(m.jobs, spark);
    forall i | 0 <= i < |m.jobs| && m.jobs[i].status == Running ensures m.jobs[i].spark != spark && m.jobs[i].id != id {
      assert m.jobs[i] in m.jobs;
    }
    assert job in after.jobs;
    forall s ensures s in after.active <==> RunsOn(after.jobs, s) {
      if RunsOn(m.jobs, s) {
        var j :| j in m.jobs && j.status == Running && j.spark == s;
        assert j in after.jobs;
      }
    }
    forall t | t in tickets + {Ticket(spark, id)}
      ensures t.id in FinishedOf(after.book, t.spark)
              || exists j :: j in after.jobs && j.status == Running && j.spark == t.spark && j.id == t.id
    {
      if t in tickets && t.id !in FinishedOf(m.book, t.spark) {
        var j :| j in m.jobs && j.status == Running && j.spark == t.spark && j.id == t.id;
        assert j in after.jobs;
      }
    }
    CheckpointOk(after, disk, tickets + {Ticket(spark, id)});
  }

  /** With the finished job in the saved history and still in the checkpoint, a restart skips it. */
  lemma HistoryWritten(m: Memory, disk: Disk, tickets: set<Ticket>, job: Job, status: Status)
    requires UpOk(m, disk, tickets) && Enabled(m, Finish(job, status))
    ensures var book := Pushed(m.book, job.(status := status));
            && BookOk(book) && DiskOk(disk.(book := book), tickets)
            && (forall s, id :: id in FinishedOf(m.book, s) ==> id in FinishedOf(book, s))
            && job.id in FinishedOf(book, job.spark)
  {
    hide BookOk, Pushed;
    var done := job.(status := status);
    var book := Pushed(m.book, done);
    PushMakesHead(m.book, done, job);
    forall a | a in disk.active ensures NewOrHead(book, a) {
      assert RunsAs(m.jobs, a);
      var j :| j in m.jobs && j.status == Running && j.spark == a.spark && j.id == a.id;
      PushedAt(m.book, done, a.spark);
      if a.spark == job.spark { SameRunning(m.jobs, j, job); }
    }
    forall t | t in tickets ensures t.id in FinishedOf(book, t.spark) || Lists(disk.active, t) {
      assert FinishedOf(m.book, t.spark) == FinishedOf(disk.book, t.spark);
    }
  }

  lemma FinishKeepsOk(m: Memory, disk: Disk, tickets: set<Ticket>, job: Job, status: Status)
    requires UpOk(m, disk, tickets) && Enabled(m, Finish(job, status))
    ensures var out := Finished(m, job, status);
            UpOk(out.memory, Disk(RunningJobs(out.memory.jobs), out.memory.book), tickets)
  {
    hide BookOk, DiskOk, Pushed, WithStatus;
    var after := Finished(m, job, status).memory;
    HistoryWritten(m, disk, tickets, job, status);
    UpIsLive(m, disk, tickets);
    StopsOne(m.jobs, job.id, status);
    forall j | j in after.jobs && j.status == Running
      ensures j.id !in FinishedOf(after.book, j.spark) && j.spark != job.spark
    {
      if j.spark == job.spark { SameRunning(m.jobs, j, job); }
      PushedAt(m.book, job.(status := status), j.spark);
    }
    forall s ensures s in after.active <==> RunsOn(after.jobs, s) {
      if RunsOn(m.jobs, s) && s != job.spark {
        var j :| j in m.jobs && j.status == Running && j.spark == s;
        if j.id == job.id { SameRunning(m.jobs, j, job); }
        assert j in after.jobs;
      }
    }
    forall t | t in tickets
      ensures t.id in FinishedOf(after.book, t.spark)
              || exists j :: j in after.jobs && j.status == Running && j.spark == t.spark && j.id == t.id
    {
      if t.id !in FinishedOf(m.book, t.spark) {
        var j :| j in m.jobs && j.status == Running && j.spark == t.spark && j.id == t.id;
        if j.id == job.id { SameRunning(m.jobs, j, job); } else { assert j in after.jobs; }
      }
    }
    CheckpointOk(after, Disk(disk.active, after.book), tickets);
  }

  lemma ClearKeepsOk(m: Memory, disk: Disk, tickets: set<Ticket>, spark: string, port: Option<int>)
    requires UpOk(m, disk, tickets)
    ensures var after := Cleared(m, spark, port).memory;
            UpOk(after, disk.(book := after.book), tickets)
  {
    hide SparkOk, ClearedBook, Remaining;
    var after := Cleared(m, spark, port).memory;
    ClearKeepsBook(m.book, spark, port);
    RemainingExclusive(m.jobs, spark, port);
    RemainingIs(m.jobs, spark, port, false);
    forall s ensures FinishedOf(after.book, s) == FinishedOf(m.book, s) == FinishedOf(disk.book, s) {
      ClearedAt(m.book, spark, port, s);
    }
    forall a | a in disk.active ensures RunsAs(after.jobs, a) && NewOrHead(after.book, a) {
      assert RunsAs(m.jobs, a);
      var j :| j in m.jobs && j.status == Running && j.spark == a.spark && j.id == a.id;
      assert j in after.jobs;
      assert j.id !in FinishedOf(m.book, j.spark);
    }
    forall s ensures s in after.active <==> RunsOn(after.jobs, s) {
      if RunsOn(m.jobs, s) {
        var j :| j in m.jobs && j.status == Running && j.spark == s;
        assert j in after.jobs;
      }
    }
  }

  lemma OneWrite(disk: Disk, w: Write)
    ensures WrittenAll(disk, [w]) == Written(disk, w)
  {
    assert [w][..0] == [];
  }

  lemma TwoWrites(disk: Disk, v: Write, w: Write)
    ensures WrittenAll(disk, [v, w]) == Written(Written(disk, v), w)
    ensures WrittenAll(disk, [v, w][..1]) == Written(disk, v)
  {
    assert [v, w][..1] == [v];
    OneWrite(disk, v);
  }

  /** An operation that runs to its end keeps memory and files in step. */
  lemma DoKeepsOk(m: Memory, disk: Disk, tickets: set<Ticket>, op: Operation)
    requires UpOk(m, disk, tickets) && Enabled(m, op)
    ensures var out := OutcomeOf(m, op);
            UpOk(out.memory, WrittenAll(disk, out.writes), TicketsAfter(m, op, tickets))
  {
    hide UpOk, Enabled, Pushed, ClearedBook, Remaining, WithStatus, RunningJobs;
    match op
    case Start(id, spark, port) =>
      if spark !in m.active {
        StartKeepsOk(m, disk, tickets, id, spark, port);
        OneWrite(disk, WriteActive(RunningJobs(m.jobs + [Job(id, spark, port, Running)])));
      }
    case Checkpoint =>
      CheckpointWhenUp(m, disk, tickets);
      OneWrite(disk, WriteActive(RunningJobs(m.jobs)));
    case Finish(job, status) =>
      FinishKeepsOk(m, disk, tickets, job, status);
      var out := Finished(m, job, status);
      TwoWrites(disk, WriteHistory(out.memory.book), WriteActive(RunningJobs(out.memory.jobs)));
    case Clear(spark, port) =>
      ClearKeepsOk(m, disk, tickets, spark, port);
      OneWrite(disk, WriteHistory(ClearedBook(m.book, spark, port)));
  }

  lemma CheckpointWhenUp(m: Memory, disk: Disk, tickets: set<Ticket>)
    requires UpOk(m, disk, tickets)
    ensures UpOk(m, disk.(active := RunningJobs(m.jobs)), tickets)
  {
    hide BookOk, DiskOk, SameBook;
    UpIsLive(m, disk, tickets);
    CheckpointOk(m, disk, tickets);
  }

  lemma UpHasGoodDisk(m: Memory, disk: Disk, tickets: set<Ticket>)
    requires UpOk(m, disk, tickets)
    ensures DiskOk(disk, tickets)
  {
  }

  lemma FewerTickets(disk: Disk, tickets: set<Ticket>, more: set<Ticket>)
    requires DiskOk(disk, more) && tickets <= more
    ensures DiskOk(disk, tickets)
  {
    hide BookOk;
  }

  /** A crash after any number of an operation's writes leaves files that know every ticket handed out before. */
  lemma CrashKeepsDisk(m: Memory, disk: Disk, tickets: set<Ticket>, op: Operation, k: nat)
    requires UpOk(m, disk, tickets) && Enabled(m, op) && k <= |OutcomeOf(m, op).writes|
    ensures DiskOk(WrittenAll(disk, OutcomeOf(m, op).writes[..k]), tickets)
  {
    hide UpOk, DiskOk, Enabled, Pushed, ClearedBook, Remaining, WithStatus, RunningJobs;
    var writes := OutcomeOf(m, op).writes;
    UpHasGoodDisk(m, disk, tickets);
    NothingWritten(disk);
    if k == |writes| {
      assert writes[..k] == writes;
      DoKeepsOk(m, disk, tickets, op);
      UpHasGoodDisk(OutcomeOf(m, op).memory, WrittenAll(disk, writes), TicketsAfter(m, op, tickets));
      FewerTickets(WrittenAll(disk, writes), tickets, TicketsAfter(m, op, tickets));
    } else if k > 0 {
      assert op.Finish?;
      HistoryWritten(m, disk, tickets, op.job, op.status);
      TwoWrites(disk, writes[0], writes[1]);
    }
  }

  /** `interruptAll`, cut short anywhere. */
  lemma ShutdownKeepsDisk(m: Memory, disk: Disk, tickets: set<Ticket>, k: nat)
    requires UpOk(m, disk, tickets) && k <= |AllInterrupted(m)|
    ensures DiskOk(WrittenAll(disk, AllInterrupted(m)[..k]), tickets)
  {
    hide *;
    var running := RunningJobs(m.jobs);
    var n := |running|;
    var writes := PromotionWrites(m.book, running, n);
    ShutdownStart(m, disk, tickets);
    PrefixOfSum(writes, [WriteActive([])], k);
    var i := DuringPromotion(disk, m.book, running, n, if k <= |writes| then k else |writes|);
    if 0 < k <= |writes| {
      StageOk(disk, tickets, m.book, running, i);
    } else if k > |writes| {
      assert writes[..|writes|] == writes && [WriteActive([])][..1] == [WriteActive([])];
      WrittenSum(disk, writes, [WriteActive([])]);
      OneWrite(WrittenAll(disk, writes), WriteActive([]));
      ShutdownEnd(m, disk, tickets, WrittenAll(disk, writes));
    } else {
      UpHasGoodDisk(m, disk, tickets);
      NothingWritten(disk);
    }
  }

  lemma ShutdownStart(m: Memory, disk: Disk, tickets: set<Ticket>)
    requires UpOk(m, disk, tickets)
    ensures ActiveOk(RunningJobs(m.jobs), m.book) && BookOk(m.book) && SameBook(m.book, disk.book)
    ensures DiskOk(disk, tickets)
    ensures forall job :: job in disk.active ==> Lists(RunningJobs(m.jobs), Ticket(job.spark, job.id))
    ensures AllInterrupted(m) == PromotionWrites(m.book, RunningJobs(m.jobs), |RunningJobs(m.jobs)|) + [WriteActive([])]
  {
    hide BookOk, SameBook, DiskOk, RunningJobs;
    RunningIs(m.jobs);
    RunningOnePerSpark(m.jobs);
    forall job | job in disk.active ensures Lists(RunningJobs(m.jobs), Ticket(job.spark, job.id)) {
      assert RunsAs(m.jobs, job);
    }
  }

  lemma ShutdownEnd(m: Memory, disk: Disk, tickets: set<Ticket>, pushed: Disk)
    requires UpOk(m, disk, tickets)
    requires var n := |RunningJobs(m.jobs)|; var writes := PromotionWrites(m.book, RunningJobs(m.jobs), n);
             pushed == if |writes| == 0 then disk else disk.(book := Promoted(m.book, RunningJobs(m.jobs), n))
    ensures DiskOk(Written(pushed, WriteActive([])), tickets)
  {
    hide BookOk, Promoted, PromotionWrites, RunningJobs, ActiveOk, UpOk;
    var running := RunningJobs(m.jobs);
    ShutdownStart(m, disk, tickets);
    AllPromoted(disk, tickets, m.book, running);
    if PromotionWrites(m.book, running, |running|) == [] {
      NoWritesNoChange(m.book, running, |running|);
      forall t | t in tickets ensures t.id in FinishedOf(disk.book, t.spark) {
        assert FinishedOf(m.book, t.spark) == FinishedOf(disk.book, t.spark);
      }
    }
    EmptyCheckpointOk(pushed.book, tickets);
  }

  // --- Restarts ---------------------------------------------------------------------------------

  lemma NotRunning(jobs: seq<Job>)
    requires forall job :: job in jobs ==> job.status == Failed
    ensures Exclusive(jobs) && (forall a :: !RunsAs(jobs, a)) && (forall s :: !RunsOn(jobs, s))
    ensures forall book :: Unfinished(jobs, book)
  {
    forall i | 0 <= i < |jobs| ensures jobs[i].status == Failed {
      assert jobs[i] in jobs;
    }
  }

  lemma SameAsItself(book: Book)
    ensures SameBook(book, book)
  {
  }

  /** After an undisturbed restart, memory and files are in step and nothing runs. */
  lemma BootKeepsOk(disk: Disk, tickets: set<Ticket>)
    requires DiskOk(disk, tickets)
    ensures UpOk(Recovered(disk).memory, WrittenAll(disk, Recovered(disk).writes), tickets)
  {
    hide BookOk, DiskOk, SameBook, LoadedHistory, Promoted, PromotionWrites, Interrupted, RestOfRecovery, WrittenAll,
         Unfinished, Exclusive, RunsAs, RunsOn;
    var book := BookOfDisk(disk, tickets);
    var n := |disk.active|;
    var m, writes := Recovered(disk).memory, Recovered(disk).writes;
    InterruptedIs(book, disk.active, n);
    NotRunning(m.jobs);
    RecoveryWrites(disk, book);
    RecoveryCrashSafe(disk, tickets, |writes|);
    assert writes[..|writes|] == writes;
    ListsItself(disk.active);
    DiskKept(disk, tickets);
    AllPromoted(disk, tickets, book, disk.active);
    FilesAfterBoot(disk, book);
  }

  lemma FilesAfterBoot(disk: Disk, book: Book)
    requires book == disk.book.(history := LoadedHistory(disk.book.history)) && SameBook(book, disk.book)
    ensures WrittenAll(disk, Recovered(disk).writes).active == []
    ensures SameBook(Recovered(disk).memory.book, WrittenAll(disk, Recovered(disk).writes).book)
  {
    hide *;
    var n := |disk.active|;
    var promoted, pushes := Promoted(book, disk.active, n), PromotionWrites(book, disk.active, n);
    RecoveryWrites(disk, book);
    SameAsItself(promoted);
    NothingWritten(disk);
    if n == 0 {
      NothingToPromote(book);
      assert disk.active == [];
    } else {
      var i := DuringPromotion(disk, book, disk.active, n, |pushes|);
      assert pushes[..|pushes|] == pushes;
      var rest := RestOfRecovery(pushes, promoted);
      WrittenSum(disk, pushes, rest);
      RestLength(pushes, promoted);
      assert rest[..|rest|] == rest;
      LastWrites(WrittenAll(disk, pushes), pushes, |rest|, promoted);
      if pushes == [] { NoWritesNoChange(book, disk.active, n); }
    }
  }

  lemma RestLength(writes: seq<Write>, book: Book)
    ensures |RestOfRecovery(writes, book)| == if writes == [] then 1 else 2
  {
  }

  // --- Runs -------------------------------------------------------------------------------------

  /** The process is up, or dead with its files left behind. */
  datatype System = Up(memory: Memory, disk: Disk) | Down(disk: Disk)

  datatype Event =
    | Do(op: Operation)
    | CrashDuring(op: Operation, writes: nat)
    | Shutdown(writes: nat)
    | Boot
    | CrashDuringBoot(writes: nat)

  ghost predicate Next(s: System, e: Event, s': System) {
    match e
    case Do(op) =>
      s.Up? && Enabled(s.memory, op)
        && s' == Up(OutcomeOf(s.memory, op).memory, WrittenAll(s.disk, OutcomeOf(s.memory, op).writes))
    case CrashDuring(op, k) =>
      s.Up? && Enabled(s.memory, op) && k <= |OutcomeOf(s.memory, op).writes|
        && s' == Down(WrittenAll(s.disk, OutcomeOf(s.memory, op).writes[..k]))
    case Shutdown(k) =>
      s.Up? && k <= |AllInterrupted(s.memory)| && s' == Down(WrittenAll(s.disk, AllInterrupted(s.memory)[..k]))
    case Boot =>
      s.Down? && s' == Up(Recovered(s.disk).memory, WrittenAll(s.disk, Recovered(s.disk).writes))
    case CrashDuringBoot(k) =>
      s.Down? && k <= |Recovered(s.disk).writes| && s' == Down(WrittenAll(s.disk, Recovered(s.disk).writes[..k]))
  }

  const EMPTY_DISK := Disk([], Book(map[], map[], {}))

  ghost predicate IsRun(systems: seq<System>, events: seq<Event>) {
    && |systems| == |events| + 1
    && systems[0] == Down(EMPTY_DISK)
    && forall i :: 0 <= i < |events| ==> Next(systems[i], events[i], systems[i + 1])
  }

  /** The jobs whose `start` had returned after the first `k` events. */
  ghost function Tickets(systems: seq<System>, events: seq<Event>, k: nat): set<Ticket>
    requires IsRun(systems, events) && k <= |events|
  {
    if k == 0 then {}
    else
      var before := Tickets(systems, events, k - 1);
      assert Next(systems[k - 1], events[k - 1], systems[k]);
      if events[k - 1].Do? then TicketsAfter(systems[k - 1].memory, events[k - 1].op, before) else before
  }

  ghost predicate SystemOk(s: System, tickets: set<Ticket>) {
    if s.Up? then UpOk(s.memory, s.disk, tickets) else DiskOk(s.disk, tickets)
  }

  lemma NextKeepsOk(s: System, e: Event, s': System, tickets: set<Ticket>)
    requires Next(s, e, s') && SystemOk(s, tickets)
    ensures SystemOk(s', if e.Do? then TicketsAfter(s.memory, e.op, tickets) else tickets)
  {
    hide UpOk, DiskOk, Enabled, OutcomeOf, AllInterrupted, Recovered, WrittenAll;
    match e
    case Do(op) => DoKeepsOk(s.memory, s.disk, tickets, op);
    case CrashDuring(op, k) => CrashKeepsDisk(s.memory, s.disk, tickets, op, k);
    case Shutdown(k) => ShutdownKeepsDisk(s.memory, s.disk, tickets, k);
    case Boot => BootKeepsOk(s.disk, tickets);
    case CrashDuringBoot(k) => RecoveryCrashSafe(s.disk, tickets, k);
  }

  lemma EmptyDiskOk()
    ensures DiskOk(EMPTY_DISK, {})
  {
  }

  lemma {:induction false} EveryRunIsOk(systems: seq<System>, events: seq<Event>, k: nat)
    requires IsRun(systems, events) && k <= |events|
    ensures SystemOk(systems[k], Tickets(systems, events, k))
  {
    hide Next, SystemOk;
    if k == 0 {
      EmptyDiskOk();
      StartOk();
    } else {
      EveryRunIsOk(systems, events, k - 1);
      assert Next(systems[k - 1], events[k - 1], systems[k]);
      NextKeepsOk(systems[k - 1], events[k - 1], systems[k], Tickets(systems, events, k - 1));
    }
  }

  lemma StartOk()
    ensures SystemOk(Down(EMPTY_DISK), {})
  {
    hide DiskOk;
    EmptyDiskOk();
  }

  /**
    Crash safety: whatever happened, crashes between any two writes and during earlier restarts included, a
    manager that starts from the files now answers for every job whose start had returned, and not with a
    running status, unless the job was cleared or ten jobs of its Spark finished after it.
   */
  lemma CrashSafe(systems: seq<System>, events: seq<Event>, k: nat, t: Ticket)
    requires IsRun(systems, events) && k <= |events| && t in Tickets(systems, events, k)
    ensures var m := Recovered(systems[k].disk).memory;
            && (forall job :: Answers(m, t.id, job) ==> job.status != Running)
            && (|| (exists job :: Answers(m, t.id, job))
                || t.id in m.book.cleared
                || Displaced(FinishedOf(m.book, t.spark), t.id))
  {
    hide Tickets, Recovered, Answers, UpOk, DiskOk;
    EveryRunIsOk(systems, events, k);
    var s, tickets := systems[k], Tickets(systems, events, k);
    if s.Up? { UpHasGoodDisk(s.memory, s.disk, tickets); }
    RestartAnswers(s.disk, tickets, t);
  }

  /**
    In every reachable history, on disk as in memory, a Spark has at most ten jobs, with distinct ids, none running.
   */
  lemma HistoriesStayShort(systems: seq<System>, events: seq<Event>, k: nat, spark: string)
    requires IsRun(systems, events) && k <= |events|
    ensures var list := ListOf(systems[k].disk.book.history, spark);
            |list| <= 10 && Settled(list, spark) && forall i, j :: 0 <= i < j < |list| ==>
              list[i].id != list[j].id
    ensures systems[k].Up? ==>
              ListOf(systems[k].memory.book.history, spark) == ListOf(systems[k].disk.book.history, spark)
  {
    hide Tickets, Next;
    EveryRunIsOk(systems, events, k);
    var book := systems[k].disk.book;
    var list := ListOf(book.history, spark);
    assert SparkOk(list, FinishedOf(book, spark), book.cleared, spark);
    DistinctIds(list, FinishedOf(book, spark), 0);
  }
}
