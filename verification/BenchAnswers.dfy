/**
  What `getJob` answers over whole lives of the benchmark job manager (server/collectors/DecodeBench.js:636-655,
  700-760, 919-932): a job keeps the Spark and port it was started with, and the status it was finished with, before and
  after any restart.
 */
module BenchAnswers {
  import opened Options
  import opened BenchState
  import opened BenchHistory
  import opened BenchSafety
  import opened BenchRuns

  /** How a job was started and, from its history write on, how it was finished. */
  datatype Card = Card(spark: string, port: int, verdict: Option<Status>)

  type Register = map<string, Card>

  /** What an operation adds to the register when it gets as far as its `writes`-th file write. */
  function Registered(cards: Register, m: Memory, op: Operation, writes: nat): Register {
    match op
    case Start(id, spark, port) => if spark in m.active then cards else cards[id := Card(spark, port, None)]
    case Finish(job, status) =>
      if writes > 0 && job.id in cards then cards[job.id := cards[job.id].(verdict := Some(status))] else cards
    case Checkpoint => cards
    case Clear(_, _) => cards
  }

  function RegisterAfter(cards: Register, s: System, e: Event): Register {
    if s.Down? then cards
    else
      match e
      case Do(op) => Registered(cards, s.memory, op, |OutcomeOf(s.memory, op).writes|)
      case CrashDuring(op, k) => Registered(cards, s.memory, op, k)
      case _ => cards
  }

  ghost function RegisterOf(systems: seq<System>, events: seq<Event>, k: nat): Register
    requires |systems| == |events| + 1 && k <= |events|
  {
    if k == 0 then map[] else RegisterAfter(RegisterOf(systems, events, k - 1), systems[k - 1], events[k - 1])
  }

  /** A job that was cut short before its history write ends as failed. */
  function FinalStatus(card: Card): Status {
    if card.verdict.Some? then card.verdict.value else Failed
  }

  predicate Known(job: Job, cards: Register) {
    job.id in cards && cards[job.id].spark == job.spark && cards[job.id].port == job.port
  }

  // --- Books and checkpoints that fit the register ----------------------------------------------

  predicate Fits(job: Job, cards: Register) {
    Known(job, cards) && job.status == FinalStatus(cards[job.id])
  }

  ghost predicate BookFits(book: Book, cards: Register) {
    forall s, job :: job in ListOf(book.history, s) ==> Fits(job, cards)
  }

  /** A job of the checkpoint that has a verdict is in the saved history already. */
  predicate ActiveFits(active: seq<Job>, book: Book, cards: Register) {
    forall a :: a in active ==>
      Known(a, cards) && (cards[a.id].verdict.Some? ==> a.id in FinishedOf(book, a.spark))
  }

  ghost predicate DiskFits(disk: Disk, cards: Register) {
    BookFits(disk.book, cards) && ActiveFits(disk.active, disk.book, cards)
  }

  predicate JobsFit(jobs: seq<Job>, cards: Register) {
    forall job :: job in jobs ==>
      if job.status == Running then Known(job, cards) && cards[job.id].verdict.None? else Fits(job, cards)
  }

  ghost predicate SystemFits(s: System, cards: Register) {
    DiskFits(s.disk, cards) && (s.Up? ==> JobsFit(s.memory.jobs, cards))
  }

  lemma SameBookFits(a: Book, b: Book, cards: Register)
    requires BookFits(a, cards) && SameBook(a, b)
    ensures BookFits(b, cards)
  {
    hide Fits;
    forall s, job | job in ListOf(b.history, s) ensures Fits(job, cards) {
      assert job in ListOf(a.history, s);
    }
  }

  lemma {:induction false} RemovedFrom(jobs: seq<Job>, id: string)
    ensures forall job :: job in RemoveFirst(jobs, id) ==> job in jobs
  {
    if jobs != [] {
      RemovedFrom(jobs[1..], id);
      assert jobs == [jobs[0]] + jobs[1..];
    }
  }

  lemma PushFits(book: Book, job: Job, cards: Register)
    requires BookFits(book, cards) && Fits(job, cards)
    ensures BookFits(Pushed(book, job), cards)
  {
    hide Fits, Pushed;
    forall s, j | j in ListOf(Pushed(book, job).history, s) ensures Fits(j, cards) {
      PushedAt(book, job, s);
      RemovedFrom(ListOf(book.history, s), job.id);
      if j != job { assert j in ListOf(book.history, s); }
    }
  }

  lemma ListedIsFinished(book: Book, job: Job)
    requires BookOk(book) && job in ListOf(book.history, job.spark)
    ensures job.id in FinishedOf(book, job.spark)
  {
    var list := ListOf(book.history, job.spark);
    assert SparkOk(list, FinishedOf(book, job.spark), book.cleared, job.spark);
    var k :| 0 <= k < |list| && list[k] == job;
    InOrderFrom(list, FinishedOf(book, job.spark), 0, k);
  }

  lemma ListedUnderItsSpark(book: Book, s: string, job: Job)
    requires BookOk(book) && job in ListOf(book.history, s)
    ensures job.spark == s && job.status != Running
  {
    assert SparkOk(ListOf(book.history, s), FinishedOf(book, s), book.cleared, s);
  }

  /** A new card, or a verdict, for an id that the history does not hold leaves the book alone. */
  lemma CardOfAnother(book: Book, cards: Register, id: string, card: Card)
    requires BookOk(book) && BookFits(book, cards)
    requires forall s :: (id in cards ==> cards[id].spark == s) ==> id !in FinishedOf(book, s)
    ensures BookFits(book, cards[id := card])
  {
    hide BookOk;
    forall s, job | job in ListOf(book.history, s) ensures Fits(job, cards[id := card]) {
      assert Fits(job, cards);
      ListedUnderItsSpark(book, s, job);
      ListedIsFinished(book, job);
    }
  }

  // --- Promotion --------------------------------------------------------------------------------

  lemma PromoteOneFits(book: Book, before: Book, jobs: seq<Job>, k: nat, cards: Register)
    requires k < |jobs| && PromotedOk(book, before, jobs, k) && ActiveOk(jobs, book) && ActiveFits(jobs, book, cards)
    requires BookFits(before, cards) && !Has(ListOf(before.history, jobs[k].spark), jobs[k].id)
    ensures Fits(jobs[k].(status := Failed), cards)
    ensures BookFits(Pushed(before, jobs[k].(status := Failed)), cards)
  {
    hide BookOk, BookFits, Pushed;
    var job := jobs[k];
    assert job in jobs && NewOrHead(before, job);
    HasWhenFinished(before, job);
    PushFits(before, job.(status := Failed), cards);
  }

  lemma {:induction false} PromotionFits(book: Book, jobs: seq<Job>, k: nat, cards: Register)
    requires BookOk(book) && ActiveOk(jobs, book) && k <= |jobs|
    requires BookFits(book, cards) && ActiveFits(jobs, book, cards)
    ensures BookFits(Promoted(book, jobs, k), cards)
    ensures forall job :: job in Interrupted(book, jobs, k) ==> Fits(job, cards)
  {
    hide BookOk, ActiveOk, BookFits, ActiveFits, PromotedOk, Fits, Pushed, Has, ListOf;
    if k > 0 {
      PromotionFits(book, jobs, k - 1, cards);
      PromotionOk(book, jobs, k - 1);
      var before := Promoted(book, jobs, k - 1);
      if !Has(ListOf(before.history, jobs[k - 1].spark), jobs[k - 1].id) {
        PromoteOneFits(book, before, jobs, k - 1, cards);
      }
    }
  }

  /** A stage of a promotion fits, with the checkpoint still in place. */
  lemma StageFits(disk: Disk, book: Book, jobs: seq<Job>, i: nat, cards: Register)
    requires BookOk(book) && SameBook(book, disk.book) && ActiveOk(jobs, book) && i <= |jobs|
    requires DiskFits(disk, cards) && ActiveFits(jobs, book, cards)
    ensures DiskFits(disk.(book := Promoted(book, jobs, i)), cards)
  {
    hide BookOk, ActiveOk, BookFits;
    SameBookFits(disk.book, book, cards);
    PromotionFits(book, jobs, i, cards);
    PromotionOk(book, jobs, i);
    var after := Promoted(book, jobs, i);
    forall a | a in disk.active && cards[a.id].verdict.Some? ensures a.id in FinishedOf(after, a.spark) {
      assert FinishedOf(book, a.spark) == FinishedOf(disk.book, a.spark);
    }
  }

  lemma SameBookBack(a: Book, b: Book)
    requires SameBook(a, b)
    ensures SameBook(b, a)
  {
  }

  // --- Operations -------------------------------------------------------------------------------

  lemma RunningFit(m: Memory, book: Book, cards: Register)
    requires JobsFit(m.jobs, cards)
    ensures ActiveFits(RunningJobs(m.jobs), book, cards)
  {
    RunningIs(m.jobs);
  }

  lemma NewIdIsUnknownToDisk(m: Memory, disk: Disk, tickets: set<Ticket>, id: string, spark: string, port: int)
    requires UpOk(m, disk, tickets) && Enabled(m, Start(id, spark, port))
    ensures BookOk(disk.book) && (forall s :: id !in FinishedOf(disk.book, s)) && forall a :: a in disk.active ==>
              a.id != id
  {
    hide BookOk, ActiveOk, Exclusive, Unfinished;
    forall s ensures id !in FinishedOf(disk.book, s) {
      assert FinishedOf(m.book, s) == FinishedOf(disk.book, s);
    }
    forall a | a in disk.active ensures a.id != id {
      assert RunsAs(m.jobs, a);
      var job :| job in m.jobs && job.status == Running && job.spark == a.spark && job.id == a.id;
      HasItself(m.jobs, job);
    }
  }

  lemma StartFits(m: Memory, disk: Disk, tickets: set<Ticket>, id: string, spark: string, port: int, k: nat,
                  cards: Register)
    requires UpOk(m, disk, tickets) && Enabled(m, Start(id, spark, port)) && spark !in m.active && k <= 1
    requires SystemFits(Up(m, disk), cards)
    ensures var cards', out := cards[id := Card(spark, port, None)], Started(m, id, spark, port);
            SystemFits(Up(out.memory, WrittenAll(disk, out.writes[..k])), cards')
  {
    hide BookOk, RunningJobs, Exclusive, Unfinished;
    var cards', after := cards[id := Card(spark, port, None)], Started(m, id, spark, port).memory;
    NewIdIsUnknownToDisk(m, disk, tickets, id, spark, port);
    CardOfAnother(disk.book, cards, id, Card(spark, port, None));
    forall job | job in after.jobs
      ensures if job.status == Running then Known(job, cards') && cards'[job.id].verdict.None? else Fits(job, cards')
    {
      if job in m.jobs { HasItself(m.jobs, job); }
    }
    RunningFit(after, disk.book, cards');
    OneWrite(disk, WriteActive(RunningJobs(after.jobs)));
    NothingWritten(disk);
    var writes := Started(m, id, spark, port).writes;
    assert writes[..0] == [] && writes[..1] == writes;
  }

  lemma HasItself(jobs: seq<Job>, job: Job)
    requires job in jobs
    ensures Has(jobs, job.id)
  {
    var i :| 0 <= i < |jobs| && jobs[i] == job;
  }

  lemma CheckpointFits(m: Memory, disk: Disk, cards: Register)
    requires SystemFits(Up(m, disk), cards)
    ensures SystemFits(Up(m, disk.(active := RunningJobs(m.jobs))), cards)
  {
    hide BookFits, JobsFit, RunningJobs;
    RunningFit(m, disk.book, cards);
  }

  lemma VerdictInMemory(jobs: seq<Job>, job: Job, status: Status, cards: Register)
    requires JobsFit(jobs, cards) && job in jobs && job.status == Running && status != Running
    ensures Known(job, cards)
    ensures JobsFit(WithStatus(jobs, job.id, status), cards[job.id := cards[job.id].(verdict := Some(status))])
  {
    hide WithStatus;
    WithStatusAt(jobs, job.id, status);
    assert Known(job, cards);
    var after, cards' := WithStatus(jobs, job.id, status), cards[job.id := cards[job.id].(verdict := Some(status))];
    forall j | j in after
      ensures if j.status == Running then Known(j, cards') && cards'[j.id].verdict.None? else Fits(j, cards')
    {
      var i :| 0 <= i < |after| && after[i] == j;
      assert jobs[i] in jobs;
    }
  }

  /** The verdict of a running job, its history entry, and its status in memory, all at once. */
  lemma VerdictFits(m: Memory, disk: Disk, tickets: set<Ticket>, job: Job, status: Status, cards: Register)
    requires UpOk(m, disk, tickets) && Enabled(m, Finish(job, status)) && SystemFits(Up(m, disk), cards)
    ensures job.id in cards
    ensures var cards', out := cards[job.id := cards[job.id].(verdict := Some(status))], Finished(m, job, status);
            SystemFits(Up(out.memory, disk.(book := out.memory.book)), cards')
  {
    hide BookOk, DiskOk, BookFits, Pushed, WithStatus, JobsFit;
    VerdictInMemory(m.jobs, job, status, cards);
    var cards', done := cards[job.id := cards[job.id].(verdict := Some(status))], job.(status := status);
    CardOfAnother(m.book, cards, job.id, cards'[job.id]) by {
      SameBookBack(m.book, disk.book);
      SameBookFits(disk.book, m.book, cards);
    }
    PushFits(m.book, done, cards');
    VerdictActive(m, disk, tickets, job, status, cards);
  }

  lemma VerdictActive(m: Memory, disk: Disk, tickets: set<Ticket>, job: Job, status: Status, cards: Register)
    requires UpOk(m, disk, tickets) && Enabled(m, Finish(job, status)) && SystemFits(Up(m, disk), cards)
    requires Known(job, cards)
    ensures ActiveFits(disk.active, Pushed(m.book, job.(status := status)),
                       cards[job.id := cards[job.id].(verdict := Some(status))])
  {
    hide BookOk, DiskOk, BookFits, Pushed, JobsFit;
    forall a | a in disk.active ensures FinishedOf(m.book, a.spark) == FinishedOf(disk.book, a.spark) {
    }
    forall a | a in disk.active {
      PushedAt(m.book, job.(status := status), a.spark);
    }
  }

  lemma FinishFits(m: Memory, disk: Disk, tickets: set<Ticket>, job: Job, status: Status, k: nat, cards: Register)
    requires UpOk(m, disk, tickets) && Enabled(m, Finish(job, status)) && SystemFits(Up(m, disk), cards) && 0 < k <= 2
    ensures var out := Finished(m, job, status);
            SystemFits(Up(out.memory, WrittenAll(disk, out.writes[..k])), Registered(cards, m, Finish(job, status), k))
  {
    hide UpOk, SystemFits, Enabled, RunningJobs, Pushed, WithStatus;
    VerdictFits(m, disk, tickets, job, status, cards);
    var out := Finished(m, job, status);
    TwoWrites(disk, out.writes[0], out.writes[1]);
    assert out.writes[..2] == out.writes;
    CheckpointFits(out.memory, disk.(book := out.memory.book), Registered(cards, m, Finish(job, status), k));
  }

  lemma ClearFits(m: Memory, disk: Disk, spark: string, port: Option<int>, cards: Register)
    requires SystemFits(Up(m, disk), cards) && SameBook(m.book, disk.book)
    ensures var after := Cleared(m, spark, port).memory;
            SystemFits(Up(after, disk.(book := after.book)), cards)
  {
    hide Fits, ClearedBook, Remaining, Clears;
    var after := Cleared(m, spark, port).memory;
    RemainingIs(m.jobs, spark, port, false);
    forall s, job | job in ListOf(after.book.history, s) ensures Fits(job, cards) {
      ClearedAt(m.book, spark, port, s);
      RemainingIs(ListOf(m.book.history, s), spark, port, true);
      assert job in ListOf(disk.book.history, s);
    }
    forall a | a in disk.active ensures FinishedOf(after.book, a.spark) == FinishedOf(disk.book, a.spark) {
      ClearedAt(m.book, spark, port, a.spark);
    }
  }

  // --- Steps ------------------------------------------------------------------------------------

  lemma OpFits(m: Memory, disk: Disk, tickets: set<Ticket>, op: Operation, k: nat, cards: Register)
    requires UpOk(m, disk, tickets) && Enabled(m, op) && SystemFits(Up(m, disk), cards)
    requires k <= |OutcomeOf(m, op).writes|
    ensures DiskFits(WrittenAll(disk, OutcomeOf(m, op).writes[..k]), Registered(cards, m, op, k))
    ensures k == |OutcomeOf(m, op).writes| ==> JobsFit(OutcomeOf(m, op).memory.jobs, Registered(cards, m, op, k))
  {
    hide UpOk, DiskFits, JobsFit, Enabled, Pushed, ClearedBook, Remaining, WithStatus, RunningJobs;
    NothingWritten(disk);
    var writes := OutcomeOf(m, op).writes;
    assert writes[..0] == [];
    match op
    case Start(id, spark, port) =>
      if spark !in m.active { StartFits(m, disk, tickets, id, spark, port, k, cards); }
    case Checkpoint =>
      if k == 1 {
        OneWrite(disk, writes[0]);
        assert writes[..1] == writes;
        CheckpointFits(m, disk, cards);
      }
    case Finish(job, status) =>
      if k > 0 { FinishFits(m, disk, tickets, job, status, k, cards); }
    case Clear(spark, port) =>
      if k == 1 {
        OneWrite(disk, writes[0]);
        assert writes[..1] == writes;
        UpSameBook(m, disk, tickets);
        ClearFits(m, disk, spark, port, cards);
      }
  }

  lemma UpSameBook(m: Memory, disk: Disk, tickets: set<Ticket>)
    requires UpOk(m, disk, tickets)
    ensures SameBook(m.book, disk.book)
  {
  }

  /** `interruptAll`, cut short anywhere. */
  lemma ShutdownFits(m: Memory, disk: Disk, tickets: set<Ticket>, k: nat, cards: Register)
    requires UpOk(m, disk, tickets) && k <= |AllInterrupted(m)| && SystemFits(Up(m, disk), cards)
    ensures DiskFits(WrittenAll(disk, AllInterrupted(m)[..k]), cards)
  {
    hide *;
    var running := RunningJobs(m.jobs);
    var n := |running|;
    var writes := PromotionWrites(m.book, running, n);
    ShutdownStart(m, disk, tickets);
    FitsParts(m, disk, cards);
    RunningFit(m, m.book, cards);
    PrefixOfSum(writes, [WriteActive([])], k);
    var i := DuringPromotion(disk, m.book, running, n, if k <= |writes| then k else |writes|);
    StageFits(disk, m.book, running, i, cards);
    NothingWritten(disk);
    if k > |writes| {
      assert writes[..|writes|] == writes && [WriteActive([])][..1] == [WriteActive([])];
      WrittenSum(disk, writes, [WriteActive([])]);
      OneWrite(WrittenAll(disk, writes), WriteActive([]));
      EmptyActiveFits(WrittenAll(disk, writes), cards);
    }
  }

  lemma FitsParts(m: Memory, disk: Disk, cards: Register)
    requires SystemFits(Up(m, disk), cards)
    ensures DiskFits(disk, cards) && JobsFit(m.jobs, cards)
  {
  }

  lemma EmptyActiveFits(disk: Disk, cards: Register)
    requires DiskFits(disk, cards)
    ensures DiskFits(Written(disk, WriteActive([])), cards) && DiskFits(Disk([], disk.book), cards)
  {
  }

  lemma LoadedFits(disk: Disk, tickets: set<Ticket>, book: Book, cards: Register)
    requires DiskOk(disk, tickets) && DiskFits(disk, cards) && SameBook(book, disk.book)
    ensures BookFits(book, cards) && ActiveFits(disk.active, book, cards)
  {
    hide BookFits, Known;
    SameBookBack(book, disk.book);
    SameBookFits(disk.book, book, cards);
  }

  /** A recovery, cut short anywhere. */
  lemma RecoveryFits(disk: Disk, tickets: set<Ticket>, k: nat, cards: Register)
    requires DiskOk(disk, tickets) && k <= |Recovered(disk).writes| && DiskFits(disk, cards)
    ensures DiskFits(WrittenAll(disk, Recovered(disk).writes[..k]), cards)
  {
    hide *;
    var book := BookOfDisk(disk, tickets);
    var n := |disk.active|;
    RecoveryWrites(disk, book);
    NothingWritten(disk);
    LoadedFits(disk, tickets, book, cards);
    if n > 0 && k > 0 {
      var writes, promoted := PromotionWrites(book, disk.active, n), Promoted(book, disk.active, n);
      PrefixOfSum(writes, RestOfRecovery(writes, promoted), k);
      var i := DuringPromotion(disk, book, disk.active, n, if k <= |writes| then k else |writes|);
      StageFits(disk, book, disk.active, i, cards);
      StageFits(disk, book, disk.active, n, cards);
      if k > |writes| {
        assert writes[..|writes|] == writes;
        WrittenSum(disk, writes, RestOfRecovery(writes, promoted)[..k - |writes|]);
        LastWrites(WrittenAll(disk, writes), writes, k - |writes|, promoted);
        EmptyActiveFits(WrittenAll(disk, writes), cards);
        EmptyActiveFits(disk.(book := promoted), cards);
      }
    }
  }

  lemma RecoveredFits(disk: Disk, tickets: set<Ticket>, cards: Register)
    requires DiskOk(disk, tickets) && DiskFits(disk, cards)
    ensures BookFits(Recovered(disk).memory.book, cards) && JobsFit(Recovered(disk).memory.jobs, cards)
  {
    hide BookOk, DiskOk, BookFits, ActiveFits, SameBook, LoadedHistory, Fits, PromotionWrites;
    var book := BookOfDisk(disk, tickets);
    LoadedFits(disk, tickets, book, cards);
    PromotionFits(book, disk.active, |disk.active|, cards);
    InterruptedIs(book, disk.active, |disk.active|);
  }

  lemma NextFits(s: System, e: Event, s': System, tickets: set<Ticket>, cards: Register)
    requires Next(s, e, s') && SystemOk(s, tickets) && SystemFits(s, cards)
    ensures SystemFits(s', RegisterAfter(cards, s, e))
  {
    hide UpOk, DiskOk, DiskFits, JobsFit, Enabled, OutcomeOf, AllInterrupted, Recovered, WrittenAll, Registered;
    match e
    case Do(op) =>
      var writes := OutcomeOf(s.memory, op).writes;
      assert writes[..|writes|] == writes;
      OpFits(s.memory, s.disk, tickets, op, |writes|, cards);
    case CrashDuring(op, k) => OpFits(s.memory, s.disk, tickets, op, k, cards);
    case Shutdown(k) => ShutdownFits(s.memory, s.disk, tickets, k, cards);
    case Boot =>
      var writes := Recovered(s.disk).writes;
      assert writes[..|writes|] == writes;
      RecoveryFits(s.disk, tickets, |writes|, cards);
      RecoveredFits(s.disk, tickets, cards);
    case CrashDuringBoot(k) => RecoveryFits(s.disk, tickets, k, cards);
  }

  lemma {:induction false} EveryRunFits(systems: seq<System>, events: seq<Event>, k: nat)
    requires IsRun(systems, events) && k <= |events|
    ensures SystemFits(systems[k], RegisterOf(systems, events, k))
  {
    hide Next, SystemOk, RegisterAfter, Tickets;
    if k == 0 {
      NothingFits();
    } else {
      EveryRunFits(systems, events, k - 1);
      EveryRunIsOk(systems, events, k - 1);
      assert Next(systems[k - 1], events[k - 1], systems[k]);
      NextFits(systems[k - 1], events[k - 1], systems[k], Tickets(systems, events, k - 1),
               RegisterOf(systems, events, k - 1));
    }
  }

  lemma NothingFits()
    ensures SystemFits(Down(EMPTY_DISK), map[])
  {
  }

  // --- Tickets ----------------------------------------------------------------------------------

  /** Cards are never replaced: the Spark, the port and the verdict of a ticket stay. */
  predicate Keeps(card: Card, later: Card) {
    later.spark == card.spark && later.port == card.port && (card.verdict.Some? ==> later.verdict == card.verdict)
  }

  lemma NextKeepsCard(s: System, e: Event, s': System, tickets: set<Ticket>, cards: Register, t: Ticket)
    requires Next(s, e, s') && SystemOk(s, tickets) && SystemFits(s, cards) && t in tickets && t.id in cards
    ensures var cards' := RegisterAfter(cards, s, e); t.id in cards' && Keeps(cards[t.id], cards'[t.id])
  {
    hide BookOk, DiskOk, DiskFits, OutcomeOf, AllInterrupted, Recovered, WrittenAll, Exclusive, Unfinished;
    if s.Up? {
      UpIsLive(s.memory, s.disk, tickets);
      if t.id !in FinishedOf(s.memory.book, t.spark) {
        var job :| job in s.memory.jobs && job.status == Running && job.spark == t.spark && job.id == t.id;
        HasItself(s.memory.jobs, job);
      }
    }
  }

  lemma NewTicketHasCard(s: System, e: Event, s': System, tickets: set<Ticket>, cards: Register, t: Ticket)
    requires Next(s, e, s') && e.Do? && t in TicketsAfter(s.memory, e.op, tickets) && t !in tickets
    ensures var cards' := RegisterAfter(cards, s, e); t.id in cards' && cards'[t.id].spark == t.spark
  {
    hide OutcomeOf, WrittenAll;
  }

  lemma {:induction false} TicketsHaveCards(systems: seq<System>, events: seq<Event>, k: nat, t: Ticket)
    requires IsRun(systems, events) && k <= |events| && t in Tickets(systems, events, k)
    ensures var cards := RegisterOf(systems, events, k); t.id in cards && cards[t.id].spark == t.spark
  {
    hide Next, SystemOk, SystemFits, RegisterAfter, TicketsAfter;
    if k > 0 {
      var tickets, cards := Tickets(systems, events, k - 1), RegisterOf(systems, events, k - 1);
      assert Next(systems[k - 1], events[k - 1], systems[k]);
      if t in tickets {
        TicketsHaveCards(systems, events, k - 1, t);
        EveryRunIsOk(systems, events, k - 1);
        EveryRunFits(systems, events, k - 1);
        NextKeepsCard(systems[k - 1], events[k - 1], systems[k], tickets, cards, t);
      } else {
        NewTicketHasCard(systems[k - 1], events[k - 1], systems[k], tickets, cards, t);
      }
    }
  }

  lemma {:induction false} TicketsStay(systems: seq<System>, events: seq<Event>, i: nat, j: nat, t: Ticket)
    requires IsRun(systems, events) && i <= j <= |events| && t in Tickets(systems, events, i)
    ensures t in Tickets(systems, events, j)
    decreases j
  {
    hide Next;
    if i < j { TicketsStay(systems, events, i, j - 1, t); }
  }

  /** What is once known of a started job stays: its Spark, its port, and the status it was finished with. */
  lemma {:induction false} VerdictsStay(systems: seq<System>, events: seq<Event>, i: nat, j: nat, t: Ticket)
    requires IsRun(systems, events) && i <= j <= |events| && t in Tickets(systems, events, i)
    ensures t.id in RegisterOf(systems, events, i) && t.id in RegisterOf(systems, events, j)
    ensures Keeps(RegisterOf(systems, events, i)[t.id], RegisterOf(systems, events, j)[t.id])
    decreases j
  {
    hide Next, SystemOk, SystemFits, RegisterAfter, Tickets;
    TicketsHaveCards(systems, events, i, t);
    if i < j {
      VerdictsStay(systems, events, i, j - 1, t);
      TicketsStay(systems, events, i, j - 1, t);
      EveryRunIsOk(systems, events, j - 1);
      EveryRunFits(systems, events, j - 1);
      assert Next(systems[j - 1], events[j - 1], systems[j]);
      NextKeepsCard(systems[j - 1], events[j - 1], systems[j], Tickets(systems, events, j - 1),
                    RegisterOf(systems, events, j - 1), t);
    }
  }

  // --- Interrupted jobs -------------------------------------------------------------------------

  /** The job is the `i`-th of a checkpoint, failed, and the history does not list it. */
  predicate ComesBack(book: Book, jobs: seq<Job>, i: nat, job: Job)
    requires i < |jobs|
  {
    !Has(ListOf(book.history, jobs[i].spark), jobs[i].id) && job == jobs[i].(status := Failed)
  }

  /** Of the first `k` jobs of a checkpoint exactly those that the history does not list come back, as failed ones. */
  lemma {:induction false} InterruptedAre(book: Book, jobs: seq<Job>, k: nat, job: Job)
    requires BookOk(book) && ActiveOk(jobs, book) && k <= |jobs|
    ensures job in Interrupted(book, jobs, k) <==>
              exists i :: 0 <= i < k && ComesBack(book, jobs, i, job)
  {
    hide BookOk, ActiveOk, ComesBack, Interrupted;
    if k == 0 {
      NoneInterrupted(book, jobs);
    } else {
      InterruptedAre(book, jobs, k - 1, job);
      OneMoreInterrupted(book, jobs, k - 1, job);
    }
  }

  lemma NoneInterrupted(book: Book, jobs: seq<Job>)
    ensures Interrupted(book, jobs, 0) == []
  {
  }

  lemma OneMoreInterrupted(book: Book, jobs: seq<Job>, k: nat, job: Job)
    requires BookOk(book) && ActiveOk(jobs, book) && k < |jobs|
    ensures job in Interrupted(book, jobs, k + 1) <==>
              job in Interrupted(book, jobs, k) || ComesBack(book, jobs, k, job)
  {
    hide BookOk, ActiveOk, Pushed, Has;
    PromotionOk(book, jobs, k);
    assert ListOf(Promoted(book, jobs, k).history, jobs[k].spark) == ListOf(book.history, jobs[k].spark);
    hide ListOf, PromotedOk, Promoted;
  }

  /**
    A restarted manager holds exactly the jobs of the checkpoint that the saved history does not list, as failed ones.
   */
  lemma RestartHoldsInterrupted(disk: Disk, tickets: set<Ticket>, job: Job)
    requires DiskOk(disk, tickets)
    ensures job in Recovered(disk).memory.jobs <==>
              exists i :: 0 <= i < |disk.active| && ComesBack(disk.book, disk.active, i, job)
  {
    hide BookOk, DiskOk, ActiveOk, LoadedHistory, Promoted, PromotionWrites, Has, ListOf;
    var book := BookOfDisk(disk, tickets);
    InterruptedAre(book, disk.active, |disk.active|, job);
    forall i | 0 <= i < |disk.active|
      ensures ComesBack(book, disk.active, i, job) <==> ComesBack(disk.book, disk.active, i, job)
    {
      assert SameBook(book, disk.book);
    }
  }

  // --- Answers ----------------------------------------------------------------------------------

  lemma ListedFits(book: Book, cards: Register, s: string, job: Job)
    requires BookFits(book, cards) && job in ListOf(book.history, s)
    ensures Fits(job, cards)
  {
  }

  lemma AnswerFits(m: Memory, cards: Register, id: string, job: Job)
    requires BookFits(m.book, cards) && JobsFit(m.jobs, cards) && Answers(m, id, job)
    ensures Known(job, cards) && (job.status != FinalStatus(cards[job.id]) ==>
                                    job in m.jobs && job.status == Running && cards[job.id].verdict.None?)
  {
    if job in m.jobs {
      assert JobsFit(m.jobs, cards);
    } else {
      var s :| s in m.book.history && job in m.book.history[s];
      ListedFits(m.book, cards, s, job);
    }
  }

  /**
    At any point of any life, `getJob` of a manager that is up, and of one that is started from the files at that point,
    answers for a started job with the Spark and port it was started with and, once it was finished and its history
    written, with exactly the status it was finished with. Until then it answers with the running job from memory, and
    with a failed one when it was cut short.
   */
  lemma AnswersAreVerdicts(systems: seq<System>, events: seq<Event>, k: nat, t: Ticket, job: Job)
    requires IsRun(systems, events) && k <= |events| && t in Tickets(systems, events, k)
    ensures t.id in RegisterOf(systems, events, k)
    ensures var card := RegisterOf(systems, events, k)[t.id];
            && (Answers(Recovered(systems[k].disk).memory, t.id, job) ==>
                  job == Job(t.id, t.spark, card.port, FinalStatus(card)))
            && (systems[k].Up? && Answers(systems[k].memory, t.id, job) ==>
                job == Job(t.id, t.spark, card.port,
                           if card.verdict.None? && job in systems[k].memory.jobs && job.status == Running then Running
                           else FinalStatus(card)))
  {
    hide Tickets, Recovered, Answers, UpOk, DiskOk, BookFits, ActiveFits, JobsFit, RegisterOf;
    EveryRunIsOk(systems, events, k);
    EveryRunFits(systems, events, k);
    TicketsHaveCards(systems, events, k, t);
    var s, tickets, cards := systems[k], Tickets(systems, events, k), RegisterOf(systems, events, k);
    if s.Up? {
      UpHasGoodDisk(s.memory, s.disk, tickets);
      UpSameBook(s.memory, s.disk, tickets);
      SameBookBack(s.memory.book, s.disk.book);
      SameBookFits(s.disk.book, s.memory.book, cards);
      if Answers(s.memory, t.id, job) {
        AnswerFits(s.memory, cards, t.id, job);
        AnswerHasId(s.memory, t.id, job);
      }
    }
    RecoveredFits(s.disk, tickets, cards);
    var m := Recovered(s.disk).memory;
    if Answers(m, t.id, job) {
      AnswerFits(m, cards, t.id, job);
      AnswerHasId(m, t.id, job);
      RestartedRunsNothing(s.disk, tickets, t, job);
    }
  }

  lemma AnswerHasId(m: Memory, id: string, job: Job)
    requires Answers(m, id, job)
    ensures job.id == id
  {
  }

  lemma RestartedRunsNothing(disk: Disk, tickets: set<Ticket>, t: Ticket, job: Job)
    requires DiskOk(disk, tickets) && t in tickets && Answers(Recovered(disk).memory, t.id, job)
    ensures job.status != Running
  {
    hide DiskOk, Recovered, Answers;
    RestartAnswers(disk, tickets, t);
  }

  /** The job is of that Spark and port, and has ended. */
  predicate IsCleared(job: Job, spark: string, port: Option<int>) {
    job.spark == spark && (port.None? || job.port == port.value) && job.status != Running
  }

  /**
    After a clear `getJob` answers with none of the ended jobs of that Spark and port, and with all others as before.
   */
  lemma ClearedAreNotAnswered(m: Memory, spark: string, port: Option<int>, id: string, job: Job)
    requires BookOk(m.book)
    ensures var after := Cleared(m, spark, port).memory;
            && (Answers(after, id, job) ==> !IsCleared(job, spark, port))
            && (Answers(m, id, job) && !IsCleared(job, spark, port) ==> Answers(after, id, job))
  {
    hide BookOk, ClearedBook, Remaining;
    var after := Cleared(m, spark, port).memory;
    ClearKeepsOthers(m.jobs, spark, port, false);
    if Answers(after, id, job) && job !in after.jobs {
      var s :| s in after.book.history && job in after.book.history[s];
      ClearedAt(m.book, spark, port, s);
      ClearKeepsOthers(ListOf(m.book.history, s), spark, port, true);
      ListedUnderItsSpark(m.book, s, job);
    }
    if Answers(m, id, job) && !IsCleared(job, spark, port) && job !in m.jobs {
      var s :| s in m.book.history && job in m.book.history[s];
      ClearedAt(m.book, spark, port, s);
      ClearKeepsOthers(ListOf(m.book.history, s), spark, port, true);
      ListedUnderItsSpark(m.book, s, job);
      assert job in ListOf(after.book.history, s);
      NoneLeft(m.jobs, after.jobs, id);
    }
  }

  lemma NoneLeft(jobs: seq<Job>, fewer: seq<Job>, id: string)
    requires !Has(jobs, id) && forall job :: job in fewer ==> job in jobs
    ensures !Has(fewer, id)
  {
    if i :| 0 <= i < |fewer| && fewer[i].id == id {
      assert fewer[i] in jobs;
      HasItself(jobs, fewer[i]);
    }
  }

  /**
    A manager that is up answers for every started job, unless it was cleared or ten of its Spark finished after it.
   */
  lemma UpAnswers(systems: seq<System>, events: seq<Event>, k: nat, t: Ticket)
    requires IsRun(systems, events) && k <= |events| && t in Tickets(systems, events, k) && systems[k].Up?
    ensures var m := systems[k].memory;
            || (exists job :: Answers(m, t.id, job))
            || t.id in m.book.cleared
            || Displaced(FinishedOf(m.book, t.spark), t.id)
  {
    hide Tickets, BookOk, DiskOk, Next, Displaced;
    EveryRunIsOk(systems, events, k);
    var m := systems[k].memory;
    UpIsLive(m, systems[k].disk, Tickets(systems, events, k));
    if t.id in FinishedOf(m.book, t.spark) {
      FinishedIsAnswered(m, t);
    } else {
      var job :| job in m.jobs && job.status == Running && job.spark == t.spark && job.id == t.id;
      assert Answers(m, t.id, job);
    }
  }
}
