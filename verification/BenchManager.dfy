/**
  The class of server/collectors/DecodeBench.js: its maps updated in place and its two files rewritten, method
  by method. `written` records the file writes in the order in which they are made; BenchRuns shows that a
  crash between any two of them, in an operation or in a recovery, loses no job.
 */
module BenchManager {
  import opened Options
  import opened FiniteSets
  import opened BenchState
  import opened BenchHistory
  import BenchSafety
  import opened BenchRuns

  /** Running jobs, none of them in its Spark's history. */
  predicate NoneListed(jobs: seq<Job>, history: History) {
    forall job :: job in jobs && job.status == Running ==> !Has(ListOf(history, job.spark), job.id)
  }

  predicate SparksDiffer(jobs: seq<Job>) {
    forall i, j :: 0 <= i < j < |jobs| && jobs[i].status == Running && jobs[j].status == Running ==>
      jobs[i].spark != jobs[j].spark
  }

  lemma {:induction false} RunningPrefix(jobs: seq<Job>, i: nat)
    requires i <= |jobs|
    ensures RunningJobs(jobs[..i]) <= RunningJobs(jobs)
    decreases |jobs|
  {
    if i < |jobs| {
      var rest := jobs[..|jobs| - 1];
      RunningPrefix(rest, i);
      assert rest[..i] == jobs[..i];
    } else {
      assert jobs[..i] == jobs;
    }
  }

  lemma {:induction false} RunningFrom(jobs: seq<Job>, k: nat) returns (i: nat)
    requires k < |RunningJobs(jobs)|
    ensures i < |jobs| && jobs[i] == RunningJobs(jobs)[k] && jobs[i].status == Running
  {
    var rest := jobs[..|jobs| - 1];
    if k < |RunningJobs(rest)| {
      i := RunningFrom(rest, k);
    } else {
      i := |jobs| - 1;
    }
  }

  /** Promoting jobs of other Sparks leaves a Spark's history alone. */
  lemma {:induction false} PromotedElsewhere(book: Book, jobs: seq<Job>, k: nat, s: string)
    requires k <= |jobs| && forall i :: 0 <= i < k ==> jobs[i].spark != s
    ensures ListOf(Promoted(book, jobs, k).history, s) == ListOf(book.history, s)
  {
    hide Pushed;
    if k > 0 {
      PromotedElsewhere(book, jobs, k - 1, s);
      PushedAt(Promoted(book, jobs, k - 1), jobs[k - 1].(status := Failed), s);
    }
  }

  /** The next running job is new to the history that the promotion of those before it left. */
  lemma NextIsNew(book: Book, jobs: seq<Job>, i: nat)
    requires i < |jobs| && jobs[i].status == Running && NoneListed(jobs, book.history) && SparksDiffer(jobs)
    ensures var running, r := RunningJobs(jobs), |RunningJobs(jobs[..i])|;
            && r < |running| && running[r] == jobs[i]
            && |RunningJobs(jobs[..i + 1])| == r + 1
            && !Has(ListOf(Promoted(book, running, r).history, jobs[i].spark), jobs[i].id)
  {
    var running, before := RunningJobs(jobs), RunningJobs(jobs[..i]);
    var r := |before|;
    assert jobs[..i + 1][..i] == jobs[..i];
    RunningPrefix(jobs, i);
    RunningPrefix(jobs, i + 1);
    assert RunningJobs(jobs[..i + 1])[r] == jobs[i];
    assert running[r] == RunningJobs(jobs[..i + 1])[r];
    forall k | 0 <= k < r ensures running[k].spark != jobs[i].spark {
      assert running[k] == before[k];
      var j := RunningFrom(jobs[..i], k);
      assert jobs[j] == running[k];
    }
    PromotedElsewhere(book, running, r, jobs[i].spark);
    assert jobs[i] in jobs;
  }

  lemma NoRunningJobs()
    ensures RunningJobs([]) == []
  {
  }

  lemma StillRunningPrefix(jobs: seq<Job>, i: nat)
    requires i < |jobs| && jobs[i].status != Running
    ensures RunningJobs(jobs[..i + 1]) == RunningJobs(jobs[..i])
  {
    assert jobs[..i + 1][..i] == jobs[..i];
  }

  lemma {:induction false} RemoveAt(list: seq<Job>, id: string, i: nat)
    requires i < |list| && list[i].id == id && forall j :: 0 <= j < i ==> list[j].id != id
    ensures RemoveFirst(list, id) == list[..i] + list[i + 1..]
  {
    if i > 0 {
      RemoveAt(list[1..], id, i - 1);
    }
  }

  /** Position of the first job with an id, or the length of the list. */
  method FindIndex(list: seq<Job>, id: string) returns (i: nat)
    ensures i <= |list| && (i < |list| ==> list[i].id == id)
    ensures forall j :: 0 <= j < i ==> list[j].id != id
  {
    i := 0;
    while i < |list| && list[i].id != id
      invariant i <= |list|
      invariant forall j :: 0 <= j < i ==> list[j].id != id
    {
      i := i + 1;
    }
  }

  class DecodeBenchManager {
    /** Entries of the source's Map of jobs, in order of insertion. */
    var jobs: seq<Job>
    var activeBySpark: map<string, string>
    var historyBySpark: History
    ghost var finished: map<string, seq<string>>
    ghost var cleared: set<string>
    ghost var written: seq<Write>

    ghost function Abs(): Memory
      reads this
    {
      Memory(jobs, activeBySpark, SavedBook())
    }

    ghost function SavedBook(): Book
      reads this
    {
      Book(historyBySpark, finished, cleared)
    }

    /** A manager on the files of an earlier process. */
    constructor (disk: Disk)
      ensures Abs() == Recovered(disk).memory && written == Recovered(disk).writes
    {
      hide Promoted, PromotionWrites, Interrupted, LoadedHistory;
      jobs, activeBySpark, historyBySpark := [], map[], map[];
      finished, cleared, written := disk.book.finished, disk.book.cleared, [];
      new;
      LoadHistory(disk.book.history);
      RecoverInterruptedActive(disk.active);
    }

    // --- Files ----------------------------------------------------------------------------------

    method SaveHistory()
      modifies this`written
      ensures written == old(written) + [WriteHistory(SavedBook())]
    {
      written := written + [WriteHistory(SavedBook())];
    }

    method WriteActiveFile(running: seq<Job>)
      modifies this`written
      ensures written == old(written) + [WriteActive(running)]
    {
      written := written + [WriteActive(running)];
    }

    /** Writes the running jobs to the checkpoint. */
    method CheckpointActive()
      modifies this`written
      ensures written == old(written) + Checkpointed(Abs()).writes
    {
      var running := [];
      for i := 0 to |jobs|
        invariant running == RunningJobs(jobs[..i])
      {
        assert jobs[..i + 1][..i] == jobs[..i];
        if jobs[i].status == Running {
          running := running + [jobs[i]];
        }
      }
      assert jobs[..|jobs|] == jobs;
      WriteActiveFile(running);
    }

    method LoadHistory(saved: History)
      modifies this`historyBySpark
      ensures historyBySpark == LoadedHistory(saved)
    {
      historyBySpark := map[];
      var rest := saved.Keys;
      while rest != {}
        invariant rest <= saved.Keys
        invariant historyBySpark == map s | s in saved && s !in rest && saved[s] != [] :: Restored(saved[s])
      {
        var s := TakeAny(rest);
        var cleaned := Clean(saved[s]);
        if cleaned != [] {
          historyBySpark := historyBySpark[s := cleaned];
        }
        rest := rest - {s};
      }
    }

    /** At most ten jobs, none of them running. */
    static method Clean(list: seq<Job>) returns (cleaned: seq<Job>)
      ensures cleaned == Restored(list)
    {
      var kept := FirstTen(list);
      cleaned := [];
      for i := 0 to |kept|
        invariant |cleaned| == i && forall j :: 0 <= j < i ==> cleaned[j] == Restored(list)[j]
      {
        cleaned := cleaned + [if kept[i].status == Running then kept[i].(status := Cancelled) else kept[i]];
      }
    }

    /** Promotes the leftovers of a checkpoint that history does not know, then empties the checkpoint. */
    method RecoverInterruptedActive(leftovers: seq<Job>)
      requires jobs == []
      modifies this`jobs, this`historyBySpark, this`finished, this`written
      ensures SavedBook() == Promoted(old(SavedBook()), leftovers, |leftovers|)
      ensures jobs == Interrupted(old(SavedBook()), leftovers, |leftovers|)
      ensures var pushes := PromotionWrites(old(SavedBook()), leftovers, |leftovers|);
              var last := if pushes == [] then [] else [WriteHistory(SavedBook())];
              written == old(written) + if leftovers == [] then [] else pushes + [WriteActive([])] + last
    {
      hide Pushed, Promoted, PromotionWrites, Interrupted, Has, ListOf;
      PromotionStart(SavedBook(), leftovers);
      if leftovers == [] {
        return;
      }
      ghost var book, before := SavedBook(), written;
      var changed := false;
      for i := 0 to |leftovers|
        invariant SavedBook() == Promoted(book, leftovers, i) && jobs == Interrupted(book, leftovers, i)
        invariant written == before + PromotionWrites(book, leftovers, i)
        invariant changed <==> PromotionWrites(book, leftovers, i) != []
      {
        var snap := leftovers[i];
        PromotionStep(book, leftovers, i);
        if Has(ListOf(historyBySpark, snap.spark), snap.id) {
          continue;
        }
        var interrupted := snap.(status := Failed);
        jobs := jobs + [interrupted];
        PushHistory(interrupted);
        changed := true;
      }
      WriteActiveFile([]);
      if changed {
        SaveHistory();
      }
    }

    // --- Operations -----------------------------------------------------------------------------

    /** Puts a finished job at the head of its Spark's history and saves it. */
    method PushHistory(job: Job)
      requires job.status != Running
      modifies this`historyBySpark, this`finished, this`written
      ensures SavedBook() == Pushed(old(SavedBook()), job)
      ensures written == old(written) + [WriteHistory(SavedBook())]
    {
      var list := ListOf(historyBySpark, job.spark);
      var existing := FindIndex(list, job.id);
      if existing < |list| {
        RemoveAt(list, job.id, existing);
        list := list[..existing] + list[existing + 1..];
      } else {
        RemoveAbsent(list, job.id);
      }
      historyBySpark := historyBySpark[job.spark := FirstTen([job] + list)];
      finished := finished[job.spark := [job.id] + if job.spark in finished then finished[job.spark] else []];
      SaveHistory();
    }

    /** Accepts a job for a Spark that has none running, and checkpoints it before returning. */
    method Start(id: string, spark: string, port: int) returns (accepted: bool)
      modifies this
      ensures var out := Started(old(Abs()), id, spark, port);
              Abs() == out.memory && written == old(written) + out.writes
      ensures accepted <==> spark !in old(activeBySpark)
    {
      if spark in activeBySpark {
        return false;
      }
      jobs := jobs + [Job(id, spark, port, Running)];
      activeBySpark := activeBySpark[spark := id];
      CheckpointActive();
      accepted := true;
    }

    /** The end of a run: the final status, then history, then the checkpoint without the job. */
    method Finish(job: Job, status: Status)
      requires status != Running
      modifies this
      ensures var out := Finished(old(Abs()), job, status);
              Abs() == out.memory && written == old(written) + out.writes
    {
      jobs := WithStatus(jobs, job.id, status);
      activeBySpark := activeBySpark - {job.spark};
      PushHistory(job.(status := status));
      CheckpointActive();
    }

    method ClearHistory(spark: string, port: Option<int>)
      modifies this
      ensures var out := Cleared(old(Abs()), spark, port);
              Abs() == out.memory && written == old(written) + out.writes
    {
      var list := Remaining(ListOf(historyBySpark, spark), spark, port, true);
      cleared := cleared + set job | job in ListOf(historyBySpark, spark) && Clears(job, spark, port) :: job.id;
      if list == [] {
        historyBySpark := historyBySpark - {spark};
      } else {
        historyBySpark := historyBySpark[spark := list];
      }
      DropFinished(spark, port);
      SaveHistory();
    }

    /** Deletes the finished jobs of a Spark from memory. */
    method DropFinished(spark: string, port: Option<int>)
      modifies this`jobs
      ensures jobs == Remaining(old(jobs), spark, port, false)
    {
      var all := jobs;
      var i := |all|;
      jobs := [];
      while i > 0
        invariant 0 <= i <= |all|
        invariant jobs == Remaining(all[i..], spark, port, false)
      {
        i := i - 1;
        assert all[i..][1..] == all[i + 1..];
        if !(Clears(all[i], spark, port) && all[i].status != Running) {
          jobs := [all[i]] + jobs;
        }
      }
      assert all[0..] == all;
    }

    /** The last call of a process: every running job is failed and pushed, then the checkpoint is emptied. */
    method InterruptAll()
      requires NoneListed(jobs, historyBySpark) && SparksDiffer(jobs)
      modifies this
      ensures written == old(written) + AllInterrupted(old(Abs()))
      ensures RunningJobs(jobs) == []
    {
      hide Pushed, Has, NoneListed, SparksDiffer, Promoted, PromotionWrites, RunningJobs;
      NoRunningJobs();
      ghost var all, book, before := jobs, SavedBook(), written;
      ghost var running := RunningJobs(all);
      PromotionStart(book, running);
      for i := 0 to |jobs|
        invariant |jobs| == |all| && forall j :: i <= j < |all| ==> jobs[j] == all[j]
        invariant RunningJobs(jobs[..i]) == []
        invariant |RunningJobs(all[..i])| <= |running|
        invariant SavedBook() == Promoted(book, running, |RunningJobs(all[..i])|)
        invariant written == before + PromotionWrites(book, running, |RunningJobs(all[..i])|)
      {
        if jobs[i].status == Running {
          NextIsNew(book, all, i);
          PromotionNext(book, running, |RunningJobs(all[..i])|);
          activeBySpark := activeBySpark - {jobs[i].spark};
          PushHistory(jobs[i].(status := Failed));
          ghost var seen := jobs[..i];
          jobs := jobs[i := jobs[i].(status := Failed)];
          assert jobs[..i] == seen;
        } else {
          StillRunningPrefix(all, i);
        }
        StillRunningPrefix(jobs, i);
      }
      assert all[..|all|] == all && jobs[..|jobs|] == jobs;
      WriteActiveFile([]);
    }

    // --- Queries --------------------------------------------------------------------------------

    /** A job by its id: from memory, else from some Spark's history. */
    method GetJob(id: string) returns (job: Option<Job>)
      ensures job.Some? ==> Answers(Abs(), id, job.value)
      ensures job.None? ==> forall j :: !Answers(Abs(), id, j)
    {
      var i := FindIndex(jobs, id);
      if i < |jobs| {
        return Some(jobs[i]);
      }
      var rest := historyBySpark.Keys;
      while rest != {}
        invariant rest <= historyBySpark.Keys
        invariant forall s, j :: s in historyBySpark && s !in rest && j in historyBySpark[s] ==> j.id != id
      {
        var s := TakeAny(rest);
        var k := FindIndex(historyBySpark[s], id);
        if k < |historyBySpark[s]| {
          return Some(historyBySpark[s][k]);
        }
        rest := rest - {s};
      }
      job := None;
    }
  }

  /** A manager in a reachable state may be shut down: no running job is in a history, and no two share a Spark. */
  lemma UpMayShutDown(m: Memory, disk: Disk, tickets: set<BenchSafety.Ticket>)
    requires UpOk(m, disk, tickets)
    ensures NoneListed(m.jobs, m.book.history) && SparksDiffer(m.jobs)
  {
    forall job | job in m.jobs && job.status == Running ensures !Has(ListOf(m.book.history, job.spark), job.id) {
      assert SparkOk(ListOf(m.book.history, job.spark), FinishedOf(m.book, job.spark), m.book.cleared, job.spark);
      if Has(ListOf(m.book.history, job.spark), job.id) {
        InOrderHas(ListOf(m.book.history, job.spark), FinishedOf(m.book, job.spark), job.id);
      }
    }
  }

  lemma PromotionStart(book: Book, jobs: seq<Job>)
    ensures Promoted(book, jobs, 0) == book && PromotionWrites(book, jobs, 0) == [] && Interrupted(book, jobs, 0) == []
  {
  }

  lemma PromotionStep(book: Book, jobs: seq<Job>, k: nat)
    requires k < |jobs|
    ensures var before, writes := Promoted(book, jobs, k), PromotionWrites(book, jobs, k);
            if Has(ListOf(before.history, jobs[k].spark), jobs[k].id) then
              && Promoted(book, jobs, k + 1) == before && PromotionWrites(book, jobs, k + 1) == writes
              && Interrupted(book, jobs, k + 1) == Interrupted(book, jobs, k)
            else
              && Promoted(book, jobs, k + 1) == Pushed(before, jobs[k].(status := Failed))
              && PromotionWrites(book, jobs, k + 1) == writes + [WriteHistory(Promoted(book, jobs, k + 1))]
              && Interrupted(book, jobs, k + 1) == Interrupted(book, jobs, k) + [jobs[k].(status := Failed)]
  {
    hide Pushed, Has, ListOf;
  }

  lemma PromotionNext(book: Book, jobs: seq<Job>, k: nat)
    requires k < |jobs|
    requires !Has(ListOf(Promoted(book, jobs, k).history, jobs[k].spark), jobs[k].id)
    ensures Promoted(book, jobs, k + 1) == Pushed(Promoted(book, jobs, k), jobs[k].(status := Failed))
    ensures PromotionWrites(book, jobs, k + 1)
            == PromotionWrites(book, jobs, k) + [WriteHistory(Promoted(book, jobs, k + 1))]
  {
    hide Pushed, Has;
  }
}
