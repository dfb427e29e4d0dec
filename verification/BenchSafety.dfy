/** Crash safety of the benchmark jobs of server/collectors/DecodeBench.js, file write by file write. */
module BenchSafety {
  import opened BenchState
  import opened BenchHistory

  /** A started job: its Spark and its id. */
  datatype Ticket = Ticket(spark: string, id: string)

  // --- The checkpoint ---------------------------------------------------------------------------

  /** The job is not finished yet, or it is the last one of its Spark that finished. */
  predicate NewOrHead(book: Book, job: Job) {
    || job.id !in FinishedOf(book, job.spark)
    || IsHead(book, job)
  }

  predicate IsHead(book: Book, job: Job) {
    && FinishedOf(book, job.spark) != [] && FinishedOf(book, job.spark)[0] == job.id
    && ListOf(book.history, job.spark) != [] && ListOf(book.history, job.spark)[0].id == job.id
  }

  predicate OnePerSpark(jobs: seq<Job>) {
    forall i, j :: 0 <= i < j < |jobs| ==> jobs[i].spark != jobs[j].spark
  }

  predicate ActiveOk(active: seq<Job>, book: Book) {
    && OnePerSpark(active)
    && forall job :: job in active ==> NewOrHead(book, job)
  }

  predicate Lists(jobs: seq<Job>, t: Ticket) {
    exists job :: job in jobs && job.spark == t.spark && job.id == t.id
  }

  /** Every ticket is in the checkpoint or among the finished jobs. */
  predicate Kept(disk: Disk, tickets: set<Ticket>) {
    forall t :: t in tickets ==> t.id in FinishedOf(disk.book, t.spark) || Lists(disk.active, t)
  }

  ghost predicate DiskOk(disk: Disk, tickets: set<Ticket>) {
    BookOk(disk.book) && ActiveOk(disk.active, disk.book) && Kept(disk, tickets)
  }

  // --- Promotion --------------------------------------------------------------------------------

  /** What holds after the first `k` jobs were promoted. */
  ghost predicate PromotedOk(book: Book, after: Book, jobs: seq<Job>, k: nat)
    requires k <= |jobs|
  {
    && BookOk(after)
    && after.cleared == book.cleared
    && (forall i :: 0 <= i < k ==> IsHead(after, jobs[i]))
    && (forall i :: k <= i < |jobs| ==>
          FinishedOf(after, jobs[i].spark) == FinishedOf(book, jobs[i].spark)
            && ListOf(after.history, jobs[i].spark) == ListOf(book.history, jobs[i].spark))
    && (forall s, id :: id in FinishedOf(book, s) ==> id in FinishedOf(after, s))
  }

  lemma HasWhenFinished(book: Book, job: Job)
    requires BookOk(book) && NewOrHead(book, job)
    ensures Has(ListOf(book.history, job.spark), job.id) <==> IsHead(book, job)
    ensures Has(ListOf(book.history, job.spark), job.id) <==> job.id in FinishedOf(book, job.spark)
  {
    var s := job.spark;
    assert SparkOk(ListOf(book.history, s), FinishedOf(book, s), book.cleared, s);
    if Has(ListOf(book.history, s), job.id) {
      InOrderHas(ListOf(book.history, s), FinishedOf(book, s), job.id);
    }
  }

  lemma PushMakesHead(book: Book, job: Job, other: Job)
    requires BookOk(book) && job.status != Running && job.id !in FinishedOf(book, job.spark)
    requires other.id == job.id && other.spark == job.spark
    ensures BookOk(Pushed(book, job)) && IsHead(Pushed(book, job), other)
    ensures forall s, id :: id in FinishedOf(book, s) ==> id in FinishedOf(Pushed(book, job), s)
  {
    hide BookOk, Pushed;
    PushKeepsBook(book, job);
    PushedAt(book, job, job.spark);
    forall s, id | id in FinishedOf(book, s) ensures id in FinishedOf(Pushed(book, job), s) {
      PushedAt(book, job, s);
    }
  }

  lemma {:induction false} PromotionOk(book: Book, jobs: seq<Job>, k: nat)
    requires BookOk(book) && ActiveOk(jobs, book) && k <= |jobs|
    ensures PromotedOk(book, Promoted(book, jobs, k), jobs, k)
  {
    hide BookOk, Pushed, NewOrHead, IsHead;
    if k > 0 {
      PromotionOk(book, jobs, k - 1);
      PromoteOne(book, Promoted(book, jobs, k - 1), jobs, k - 1);
    }
  }

  lemma PromoteOne(book: Book, before: Book, jobs: seq<Job>, k: nat)
    requires BookOk(book) && ActiveOk(jobs, book) && k < |jobs| && PromotedOk(book, before, jobs, k)
    ensures var job := jobs[k];
            PromotedOk(book, if Has(ListOf(before.history, job.spark), job.id) then before
                       else Pushed(before, job.(status := Failed)), jobs, k + 1)
  {
    hide BookOk, Pushed;
    var job := jobs[k];
    assert job in jobs;
    assert NewOrHead(before, job);
    HasWhenFinished(before, job);
    if !Has(ListOf(before.history, job.spark), job.id) {
      var failed := job.(status := Failed);
      PushMakesHead(before, failed, job);
      PushedAt(before, failed, job.spark);
      forall i | 0 <= i < |jobs| && i != k
        ensures FinishedOf(Pushed(before, failed), jobs[i].spark) == FinishedOf(before, jobs[i].spark)
        ensures ListOf(Pushed(before, failed).history, jobs[i].spark) == ListOf(before.history, jobs[i].spark)
      {
        assert jobs[i].spark != job.spark;
        PushedAt(before, failed, jobs[i].spark);
      }
    }
  }

  /** Any listing of the same jobs is still a proper checkpoint after a promotion. */
  lemma PromotionKeepsActive(book: Book, after: Book, jobs: seq<Job>, k: nat, active: seq<Job>)
    requires k <= |jobs| && ActiveOk(jobs, book) && PromotedOk(book, after, jobs, k)
    requires OnePerSpark(active) && forall job :: job in active ==> Lists(jobs, Ticket(job.spark, job.id))
    ensures ActiveOk(active, after)
  {
    hide BookOk;
    forall job | job in active ensures NewOrHead(after, job) {
      var same :| same in jobs && same.spark == job.spark && same.id == job.id;
      var i :| 0 <= i < |jobs| && jobs[i] == same;
      if i < k { assert IsHead(after, jobs[i]); }
    }
  }

  // --- Crashes inside a run of writes -----------------------------------------------------------

  /** The files never hold anything else, while the writes of a promotion go out, than some stage of it. */
  lemma {:induction false} DuringPromotion(disk: Disk, book: Book, jobs: seq<Job>, n: nat, j: nat) returns (i: nat)
    requires n <= |jobs| && j <= |PromotionWrites(book, jobs, n)|
    ensures i <= n
    ensures var after := WrittenAll(disk, PromotionWrites(book, jobs, n)[..j]);
            after == if j == 0 then disk else disk.(book := Promoted(book, jobs, i))
    ensures j == |PromotionWrites(book, jobs, n)| && j > 0 ==> Promoted(book, jobs, i) == Promoted(book, jobs, n)
  {
    hide Pushed, Has, ListOf;
    var writes := PromotionWrites(book, jobs, n);
    if j == 0 {
      i := 0;
    } else {
      var before := PromotionWrites(book, jobs, n - 1);
      if j <= |before| {
        assert writes[..j] == before[..j];
        i := DuringPromotion(disk, book, jobs, n - 1, j);
      } else {
        assert j == |before| + 1 && writes[..j][..j - 1] == before[..|before|];
        var _ := DuringPromotion(disk, book, jobs, n - 1, |before|);
        i := n;
      }
    }
  }

  lemma {:induction false} NoWritesNoChange(book: Book, jobs: seq<Job>, n: nat)
    requires n <= |jobs| && PromotionWrites(book, jobs, n) == []
    ensures Promoted(book, jobs, n) == book && Interrupted(book, jobs, n) == []
  {
    hide Pushed, Has;
    if n > 0 {
      assert PromotionWrites(book, jobs, n - 1) == [];
      NoWritesNoChange(book, jobs, n - 1);
    }
  }

  // --- Recovery ---------------------------------------------------------------------------------

  lemma SameBookActive(a: Book, b: Book, active: seq<Job>)
    requires SameBook(a, b) && ActiveOk(active, a)
    ensures ActiveOk(active, b)
  {
    forall job | job in active ensures NewOrHead(b, job) {
      assert NewOrHead(a, job);
      assert ListOf(a.history, job.spark) == ListOf(b.history, job.spark)
             && FinishedOf(a, job.spark) == FinishedOf(b, job.spark);
    }
  }

  lemma BookOfDisk(disk: Disk, tickets: set<Ticket>) returns (book: Book)
    requires DiskOk(disk, tickets)
    ensures book == disk.book.(history := LoadedHistory(disk.book.history))
    ensures BookOk(book) && SameBook(book, disk.book) && ActiveOk(disk.active, book)
  {
    hide BookOk, LoadedHistory;
    book := disk.book.(history := LoadedHistory(disk.book.history));
    LoadedSame(disk.book);
    SameBookActive(disk.book, book, disk.active);
  }

  /** A stage of a promotion is a disk that a restart can work with. */
  lemma StageOk(disk: Disk, tickets: set<Ticket>, book: Book, jobs: seq<Job>, i: nat)
    requires DiskOk(disk, tickets) && SameBook(book, disk.book) && BookOk(book) && ActiveOk(jobs, book) && i <= |jobs|
    requires forall job :: job in disk.active ==> Lists(jobs, Ticket(job.spark, job.id))
    ensures DiskOk(disk.(book := Promoted(book, jobs, i)), tickets)
  {
    hide BookOk;
    PromotionOk(book, jobs, i);
    PromotionKeepsActive(book, Promoted(book, jobs, i), jobs, i, disk.active);
    forall t | t in tickets
      ensures t.id in FinishedOf(Promoted(book, jobs, i), t.spark) || Lists(disk.active, t)
    {
      if t.id in FinishedOf(disk.book, t.spark) {
        assert FinishedOf(book, t.spark) == FinishedOf(disk.book, t.spark);
      }
    }
  }

  /** Once all of the checkpoint was promoted, the finished jobs include every ticket. */
  lemma AllPromoted(disk: Disk, tickets: set<Ticket>, book: Book, jobs: seq<Job>)
    requires Kept(disk, tickets) && SameBook(book, disk.book) && BookOk(book) && ActiveOk(jobs, book)
    requires forall job :: job in disk.active ==> Lists(jobs, Ticket(job.spark, job.id))
    ensures forall t :: t in tickets ==> t.id in FinishedOf(Promoted(book, jobs, |jobs|), t.spark)
    ensures BookOk(Promoted(book, jobs, |jobs|))
  {
    hide BookOk;
    PromotionOk(book, jobs, |jobs|);
    var after := Promoted(book, jobs, |jobs|);
    forall t | t in tickets ensures t.id in FinishedOf(after, t.spark) {
      if t.id in FinishedOf(disk.book, t.spark) {
        assert FinishedOf(book, t.spark) == FinishedOf(disk.book, t.spark);
      } else {
        var job :| job in disk.active && job.spark == t.spark && job.id == t.id;
        assert Lists(jobs, Ticket(job.spark, job.id));
        var same :| same in jobs && same.spark == job.spark && same.id == job.id;
        var i :| 0 <= i < |jobs| && jobs[i] == same;
        assert IsHead(after, jobs[i]);
      }
    }
  }

  /** With all tickets among the finished jobs, an empty checkpoint is as good as any. */
  lemma EmptyCheckpointOk(book: Book, tickets: set<Ticket>)
    requires BookOk(book) && forall t :: t in tickets ==> t.id in FinishedOf(book, t.spark)
    ensures DiskOk(Disk([], book), tickets)
  {
  }

  lemma ListsItself(jobs: seq<Job>)
    ensures forall job :: job in jobs ==> Lists(jobs, Ticket(job.spark, job.id))
  {
  }

  lemma PrefixOfSum<T>(a: seq<T>, b: seq<T>, k: nat)
    requires k <= |a + b|
    ensures (a + b)[..k] == if k <= |a| then a[..k] else a + b[..k - |a|]
  {
  }

  lemma {:induction false} WrittenSum(disk: Disk, a: seq<Write>, b: seq<Write>)
    ensures WrittenAll(disk, a + b) == WrittenAll(WrittenAll(disk, a), b)
  {
    if b == [] {
      assert a + b == a;
    } else {
      assert (a + b)[..|a + b| - 1] == a + b[..|b| - 1];
      WrittenSum(disk, a, b[..|b| - 1]);
    }
  }

  /**
    What a recovery writes after the promotions: the empty checkpoint, and once more the history if anything was
    promoted.
   */
  function RestOfRecovery(writes: seq<Write>, book: Book): seq<Write> {
    [WriteActive([])] + if writes == [] then [] else [WriteHistory(book)]
  }

  lemma RecoveryWrites(disk: Disk, book: Book)
    requires book == disk.book.(history := LoadedHistory(disk.book.history))
    ensures var n := |disk.active|;
            Recovered(disk).writes == if n == 0 then [] else
                                      PromotionWrites(book, disk.active, n)
                                        + RestOfRecovery(PromotionWrites(book, disk.active, n),
                                                         Promoted(book, disk.active, n))
    ensures Recovered(disk).memory.book == Promoted(book, disk.active, |disk.active|)
  {
    hide LoadedHistory, PromotionWrites, Promoted, Interrupted;
    NothingToPromote(book);
    assert |disk.active| == 0 ==> disk.active == [];
  }

  lemma NothingToPromote(book: Book)
    ensures PromotionWrites(book, [], 0) == [] && Promoted(book, [], 0) == book
  {
  }

  /** A crash after any number of the writes of a recovery leaves a disk that the next restart can work with. */
  lemma RecoveryCrashSafe(disk: Disk, tickets: set<Ticket>, k: nat)
    requires DiskOk(disk, tickets) && k <= |Recovered(disk).writes|
    ensures DiskOk(WrittenAll(disk, Recovered(disk).writes[..k]), tickets)
  {
    hide *;
    var book := BookOfDisk(disk, tickets);
    var n := |disk.active|;
    RecoveryWrites(disk, book);
    NothingWritten(disk);
    if n > 0 && k > 0 {
      var writes, promoted := PromotionWrites(book, disk.active, n), Promoted(book, disk.active, n);
      PrefixOfSum(writes, RestOfRecovery(writes, promoted), k);
      ListsItself(disk.active);
      var i := DuringPromotion(disk, book, disk.active, n, if k <= |writes| then k else |writes|);
      if k <= |writes| {
        StageOk(disk, tickets, book, disk.active, i);
      } else {
        assert writes[..|writes|] == writes;
        EndOfPromotion(disk, tickets, book);
        WrittenSum(disk, writes, RestOfRecovery(writes, promoted)[..k - |writes|]);
        LastWrites(WrittenAll(disk, writes), writes, k - |writes|, promoted);
      }
    }
  }

  lemma NothingWritten(disk: Disk)
    ensures WrittenAll(disk, []) == disk
  {
  }

  lemma LastWrites(disk: Disk, writes: seq<Write>, k: nat, book: Book)
    requires 0 < k <= |RestOfRecovery(writes, book)|
    ensures WrittenAll(disk, RestOfRecovery(writes, book)[..k]) == Disk([], if k == 1 then disk.book else book)
    ensures k > 1 ==> writes != []
  {
    var rest := RestOfRecovery(writes, book);
    assert rest[..1] == [WriteActive([])] && rest[..1][..0] == [];
    if k == 2 {
      assert rest[..2][..1] == rest[..1];
    }
  }

  lemma EndOfPromotion(disk: Disk, tickets: set<Ticket>, book: Book)
    requires DiskOk(disk, tickets) && SameBook(book, disk.book) && BookOk(book) && ActiveOk(disk.active, book)
    ensures var n := |disk.active|; var promoted := Promoted(book, disk.active, n);
            && DiskOk(Disk([], promoted), tickets)
            && (PromotionWrites(book, disk.active, n) == [] ==> DiskOk(Disk([], disk.book), tickets))
  {
    hide BookOk, ActiveOk, Promoted;
    ListsItself(disk.active);
    AllPromoted(disk, tickets, book, disk.active);
    EmptyCheckpointOk(Promoted(book, disk.active, |disk.active|), tickets);
    if PromotionWrites(book, disk.active, |disk.active|) == [] {
      NoWritesNoChange(book, disk.active, |disk.active|);
      forall t | t in tickets ensures t.id in FinishedOf(disk.book, t.spark) {
        assert FinishedOf(book, t.spark) == FinishedOf(disk.book, t.spark);
      }
      EmptyCheckpointOk(disk.book, tickets);
    }
  }

  // --- What a restarted manager answers ---------------------------------------------------------

  lemma {:induction false} InterruptedIs(book: Book, jobs: seq<Job>, k: nat)
    requires k <= |jobs|
    ensures forall job :: job in Interrupted(book, jobs, k) ==> job.status == Failed
  {
    hide Promoted, Has, Pushed, ListOf;
    if k > 0 { InterruptedIs(book, jobs, k - 1); }
  }

  /** What a restarted manager answers is never a running job. */
  lemma NeverRunning(m: Memory, id: string, job: Job)
    requires BookOk(m.book) && (forall j :: j in m.jobs ==> j.status == Failed) && Answers(m, id, job)
    ensures job.status != Running
  {
    if job !in m.jobs {
      var s :| s in m.book.history && job in m.book.history[s];
      assert SparkOk(ListOf(m.book.history, s), FinishedOf(m.book, s), m.book.cleared, s);
    }
  }

  lemma FinishedIsAnswered(m: Memory, t: Ticket)
    requires BookOk(m.book) && t.id in FinishedOf(m.book, t.spark)
    ensures || (exists job :: Answers(m, t.id, job))
            || t.id in m.book.cleared
            || Displaced(FinishedOf(m.book, t.spark), t.id)
  {
    var list := ListOf(m.book.history, t.spark);
    assert SparkOk(list, FinishedOf(m.book, t.spark), m.book.cleared, t.spark);
    if Has(list, t.id) {
      var i :| 0 <= i < |list| && list[i].id == t.id;
      if Has(m.jobs, t.id) {
        var k :| 0 <= k < |m.jobs| && m.jobs[k].id == t.id;
        assert Answers(m, t.id, m.jobs[k]);
      } else {
        assert list[i] in m.book.history[t.spark];
        assert Answers(m, t.id, list[i]);
      }
    } else if t.id !in m.book.cleared {
      RankedIsDisplaced(FinishedOf(m.book, t.spark), t.id);
    }
  }

  /**
    After a crash anywhere, a restarted manager answers for every started job with a status other than
    running, unless the job was cleared or ten other jobs of its Spark finished after it.
   */
  lemma RestartAnswers(disk: Disk, tickets: set<Ticket>, t: Ticket)
    requires DiskOk(disk, tickets) && t in tickets
    ensures var m := Recovered(disk).memory;
            && (forall job :: Answers(m, t.id, job) ==> job.status != Running)
            && (|| (exists job :: Answers(m, t.id, job))
                || t.id in m.book.cleared
                || Displaced(FinishedOf(m.book, t.spark), t.id))
  {
    hide DiskOk, BookOk, ActiveOk, SameBook, LoadedHistory, Promoted, Answers;
    var book := BookOfDisk(disk, tickets);
    var m := Recovered(disk).memory;
    ListsItself(disk.active);
    DiskKept(disk, tickets);
    AllPromoted(disk, tickets, book, disk.active);
    InterruptedIs(book, disk.active, |disk.active|);
    FinishedIsAnswered(m, t);
    forall job | Answers(m, t.id, job) ensures job.status != Running {
      NeverRunning(m, t.id, job);
    }
  }

  lemma DiskKept(disk: Disk, tickets: set<Ticket>)
    requires DiskOk(disk, tickets)
    ensures Kept(disk, tickets)
  {
  }
}
