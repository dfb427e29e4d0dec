/**
  The benchmark job manager of server/collectors/DecodeBench.js as values: what each operation does
  to memory, and which file writes it makes, in order.
 */
module BenchState {
  import opened Options

  const HISTORY_LIMIT := 10

  datatype Status = Running | Completed | Cancelled | Failed

  datatype Job = Job(id: string, spark: string, port: int, status: Status)

  /** Finished jobs of each Spark, newest first. */
  type History = map<string, seq<Job>>

  /**
    The history as it is saved, with two records that only the proofs read: every job of a Spark that ever
    finished, newest first, and the ids that were cleared.
   */
  datatype Book = Book(history: History, finished: map<string, seq<string>>, cleared: set<string>)

  /** Jobs are listed in the order in which the Map of the source would list them. */
  datatype Memory = Memory(jobs: seq<Job>, active: map<string, string>, book: Book)

  datatype Disk = Disk(active: seq<Job>, book: Book)

  datatype Write = WriteActive(jobs: seq<Job>) | WriteHistory(book: Book)

  /** What an operation leaves in memory, and the file writes it made on the way. */
  datatype Outcome = Outcome(memory: Memory, writes: seq<Write>)

  function ListOf(history: History, spark: string): seq<Job> {
    if spark in history then history[spark] else []
  }

  function FinishedOf(book: Book, spark: string): seq<string> {
    if spark in book.finished then book.finished[spark] else []
  }

  predicate Has(jobs: seq<Job>, id: string) {
    exists i :: 0 <= i < |jobs| && jobs[i].id == id
  }

  function Written(disk: Disk, w: Write): Disk {
    match w
    case WriteActive(jobs) => disk.(active := jobs)
    case WriteHistory(book) => disk.(book := book)
  }

  function WrittenAll(disk: Disk, writes: seq<Write>): Disk {
    if writes == [] then disk else Written(WrittenAll(disk, writes[..|writes| - 1]), writes[|writes| - 1])
  }

  // --- History --------------------------------------------------------------------------------

  function RemoveFirst(jobs: seq<Job>, id: string): seq<Job> {
    if jobs == [] then [] else if jobs[0].id == id then jobs[1..] else [jobs[0]] + RemoveFirst(jobs[1..], id)
  }

  function FirstTen(jobs: seq<Job>): seq<Job> {
    if |jobs| > HISTORY_LIMIT then jobs[..HISTORY_LIMIT] else jobs
  }

  /** A finished job at the head of its Spark's history. */
  function Pushed(book: Book, job: Job): Book {
    book.(history := book.history[job.spark := FirstTen([job] + RemoveFirst(ListOf(book.history, job.spark), job.id))],
          finished := book.finished[job.spark := [job.id] + FinishedOf(book, job.spark)])
  }

  // --- Operations -----------------------------------------------------------------------------

  function RunningJobs(jobs: seq<Job>): seq<Job> {
    if jobs == [] then []
    else
      var rest, last := RunningJobs(jobs[..|jobs| - 1]), jobs[|jobs| - 1];
      if last.status == Running then rest + [last] else rest
  }

  /** The jobs with the status of one of them replaced. */
  function WithStatus(jobs: seq<Job>, id: string, status: Status): seq<Job> {
    if jobs == [] then []
    else
      var rest, last := WithStatus(jobs[..|jobs| - 1], id, status), jobs[|jobs| - 1];
      rest + [if last.id == id then last.(status := status) else last]
  }

  function Checkpointed(m: Memory): Outcome {
    Outcome(m, [WriteActive(RunningJobs(m.jobs))])
  }

  /** `start` refuses a Spark that already has a running job. */
  function Started(m: Memory, id: string, spark: string, port: int): Outcome {
    if spark in m.active then Outcome(m, [])
    else Checkpointed(m.(jobs := m.jobs + [Job(id, spark, port, Running)], active := m.active[spark := id]))
  }

  /** The end of `_runJob`: the job gets its final status, goes into history, and leaves the checkpoint. */
  function Finished(m: Memory, job: Job, status: Status): Outcome {
    var book := Pushed(m.book, job.(status := status));
    var jobs := WithStatus(m.jobs, job.id, status);
    Outcome(Memory(jobs, m.active - {job.spark}, book), [WriteHistory(book), WriteActive(RunningJobs(jobs))])
  }

  predicate Clears(job: Job, spark: string, port: Option<int>) {
    job.spark == spark && (port.Some? ==> job.port == port.value)
  }

  function Remaining(jobs: seq<Job>, spark: string, port: Option<int>, evenRunning: bool): seq<Job> {
    if jobs == [] then []
    else
      var rest := Remaining(jobs[1..], spark, port, evenRunning);
      if Clears(jobs[0], spark, port) && (evenRunning || jobs[0].status != Running) then rest else [jobs[0]] + rest
  }

  function ClearedBook(book: Book, spark: string, port: Option<int>): Book {
    var list := Remaining(ListOf(book.history, spark), spark, port, true);
    book.(history := if list == [] then book.history - {spark} else book.history[spark := list],
          cleared := book.cleared + set job | job in ListOf(book.history, spark) && Clears(job, spark, port) :: job.id)
  }

  function Cleared(m: Memory, spark: string, port: Option<int>): Outcome {
    var book := ClearedBook(m.book, spark, port);
    Outcome(m.(jobs := Remaining(m.jobs, spark, port, false), book := book), [WriteHistory(book)])
  }

  // --- Interrupted jobs -----------------------------------------------------------------------

  /** Of the first `k` jobs, those that history does not know yet are pushed as failed. */
  function Promoted(book: Book, jobs: seq<Job>, k: nat): Book
    requires k <= |jobs|
  {
    if k == 0 then book
    else
      var before := Promoted(book, jobs, k - 1);
      if Has(ListOf(before.history, jobs[k - 1].spark), jobs[k - 1].id) then before
      else Pushed(before, jobs[k - 1].(status := Failed))
  }

  /** One history write for every job pushed. */
  function PromotionWrites(book: Book, jobs: seq<Job>, k: nat): seq<Write>
    requires k <= |jobs|
  {
    if k == 0 then []
    else
      var before := Promoted(book, jobs, k - 1);
      if Has(ListOf(before.history, jobs[k - 1].spark), jobs[k - 1].id) then PromotionWrites(book, jobs, k - 1)
      else PromotionWrites(book, jobs, k - 1) + [WriteHistory(Promoted(book, jobs, k))]
  }

  /** The jobs that a promotion of the first `k` adds to memory. */
  function Interrupted(book: Book, jobs: seq<Job>, k: nat): seq<Job>
    requires k <= |jobs|
  {
    if k == 0 then []
    else
      var before := Promoted(book, jobs, k - 1);
      if Has(ListOf(before.history, jobs[k - 1].spark), jobs[k - 1].id) then Interrupted(book, jobs, k - 1)
      else Interrupted(book, jobs, k - 1) + [jobs[k - 1].(status := Failed)]
  }

  /** Jobs are never restored as running, and no more than ten of a Spark are. */
  function Restored(jobs: seq<Job>): seq<Job> {
    var kept := FirstTen(jobs);
    seq(|kept|, i requires 0 <= i < |kept| => if kept[i].status == Running then kept[i].(status := Cancelled)
        else kept[i])
  }

  function LoadedHistory(history: History): History {
    map s | s in history && history[s] != [] :: Restored(history[s])
  }

  /** A manager made from the files: history loaded, leftovers of the checkpoint promoted, the checkpoint emptied. */
  function Recovered(disk: Disk): Outcome {
    var book := disk.book.(history := LoadedHistory(disk.book.history));
    var n := |disk.active|;
    var promoted, writes := Promoted(book, disk.active, n), PromotionWrites(book, disk.active, n);
    Outcome(Memory(Interrupted(book, disk.active, n), map[], promoted),
            if disk.active == [] then []
            else writes + [WriteActive([])] + if writes == [] then [] else [WriteHistory(promoted)])
  }

  /**
    `interruptAll`, the last thing a process does: every running job is pushed as failed, then the checkpoint is
    emptied.
   */
  function AllInterrupted(m: Memory): seq<Write> {
    var running := RunningJobs(m.jobs);
    PromotionWrites(m.book, running, |running|) + [WriteActive([])]
  }

  // --- Queries --------------------------------------------------------------------------------

  /** `job` is what `getJob` answers for an id: from memory if it is there, else from some Spark's history. */
  predicate Answers(m: Memory, id: string, job: Job) {
    && job.id == id
    && (job in m.jobs || (!Has(m.jobs, id) && exists s :: s in m.book.history && job in m.book.history[s]))
  }
}
