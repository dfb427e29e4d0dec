/**
  Histories of finished benchmark jobs: at most ten per Spark, newest first, and every job that is
  missing was cleared or has ten newer ones (server/collectors/DecodeBench.js:500-595, 924-932).
 */
module BenchHistory {
  import opened Options
  import opened BenchState

  /** Position of an id among the finished ones; the number of jobs that finished after it. */
  function Rank(finished: seq<string>, id: string): nat {
    if finished == [] || finished[0] == id then 0 else 1 + Rank(finished[1..], id)
  }

  predicate Unique(ids: seq<string>) {
    forall i, j :: 0 <= i < j < |ids| ==> ids[i] != ids[j]
  }

  lemma {:induction false} RankIs(finished: seq<string>, id: string)
    requires id in finished
    ensures Rank(finished, id) < |finished| && finished[Rank(finished, id)] == id
  {
    if finished[0] != id { RankIs(finished[1..], id); }
  }

  /** At least ten different jobs finished after this one. */
  predicate Displaced(finished: seq<string>, id: string) {
    Unique(finished) && exists i :: 10 <= i < |finished| && finished[i] == id
  }

  lemma RankedIsDisplaced(finished: seq<string>, id: string)
    requires Unique(finished) && id in finished && Rank(finished, id) >= HISTORY_LIMIT
    ensures Displaced(finished, id)
  {
    RankIs(finished, id);
  }

  /** The jobs of a list were finished in this order, none of them before position `from`. */
  predicate InOrder(list: seq<Job>, finished: seq<string>, from: nat) {
    list != [] ==>
      && list[0].id in finished
      && from <= Rank(finished, list[0].id)
      && InOrder(list[1..], finished, Rank(finished, list[0].id) + 1)
  }

  lemma {:induction false} InOrderFrom(list: seq<Job>, finished: seq<string>, from: nat, k: nat)
    requires InOrder(list, finished, from) && k < |list|
    ensures list[k].id in finished && from + k <= Rank(finished, list[k].id)
  {
    if k > 0 { InOrderFrom(list[1..], finished, Rank(finished, list[0].id) + 1, k - 1); }
  }

  lemma {:induction false} InOrderTake(list: seq<Job>, finished: seq<string>, from: nat, n: nat)
    requires InOrder(list, finished, from) && n <= |list|
    ensures InOrder(list[..n], finished, from)
  {
    if n > 0 {
      InOrderTake(list[1..], finished, Rank(finished, list[0].id) + 1, n - 1);
      assert list[..n][1..] == list[1..][..n - 1];
    }
  }

  lemma {:induction false} InOrderRemaining(list: seq<Job>, finished: seq<string>, from: nat, spark: string,
                                            port: Option<int>)
    requires InOrder(list, finished, from)
    ensures InOrder(Remaining(list, spark, port, true), finished, from)
  {
    if list != [] {
      var rest := Remaining(list[1..], spark, port, true);
      InOrderRemaining(list[1..], finished, Rank(finished, list[0].id) + 1, spark, port);
      if Clears(list[0], spark, port) {
        InOrderEarlier(rest, finished, Rank(finished, list[0].id) + 1, from);
      } else {
        assert ([list[0]] + rest)[1..] == rest;
      }
    }
  }

  lemma InOrderEarlier(list: seq<Job>, finished: seq<string>, from: nat, earlier: nat)
    requires InOrder(list, finished, from) && earlier <= from
    ensures InOrder(list, finished, earlier)
  {
  }

  lemma {:induction false} InOrderBehind(list: seq<Job>, finished: seq<string>, from: nat, id: string)
    requires InOrder(list, finished, from) && id !in finished
    ensures InOrder(list, [id] + finished, from + 1)
  {
    if list != [] {
      assert ([id] + finished)[1..] == finished;
      InOrderBehind(list[1..], finished, Rank(finished, list[0].id) + 1, id);
    }
  }

  // --- One Spark ------------------------------------------------------------------------------

  /** A finished job can be found, was cleared, or has at least ten jobs of its Spark that finished later. */
  predicate Accounted(list: seq<Job>, finished: seq<string>, cleared: set<string>) {
    forall id :: id in finished ==> Has(list, id) || id in cleared || Rank(finished, id) >= HISTORY_LIMIT
  }

  predicate Settled(list: seq<Job>, spark: string) {
    forall job :: job in list ==> job.status != Running && job.spark == spark
  }

  predicate SparkOk(list: seq<Job>, finished: seq<string>, cleared: set<string>, spark: string) {
    && |list| <= HISTORY_LIMIT
    && Settled(list, spark)
    && Unique(finished)
    && InOrder(list, finished, 0)
    && Accounted(list, finished, cleared)
  }

  /** The ids of a history list are distinct. */
  lemma DistinctIds(list: seq<Job>, finished: seq<string>, from: nat)
    requires InOrder(list, finished, from)
    ensures forall i, j :: 0 <= i < j < |list| ==> list[i].id != list[j].id
  {
    forall i, j | 0 <= i < j < |list| ensures list[i].id != list[j].id {
      RanksIncrease(list, finished, from, i, j);
    }
  }

  lemma {:induction false} RanksIncrease(list: seq<Job>, finished: seq<string>, from: nat, i: nat, j: nat)
    requires InOrder(list, finished, from) && i < j < |list|
    ensures Rank(finished, list[i].id) < Rank(finished, list[j].id)
  {
    var next := Rank(finished, list[0].id) + 1;
    if i == 0 {
      InOrderFrom(list[1..], finished, next, j - 1);
    } else {
      RanksIncrease(list[1..], finished, next, i - 1, j - 1);
    }
  }

  lemma InOrderHas(list: seq<Job>, finished: seq<string>, id: string)
    requires InOrder(list, finished, 0) && Has(list, id)
    ensures id in finished
  {
    var k :| 0 <= k < |list| && list[k].id == id;
    InOrderFrom(list, finished, 0, k);
  }

  lemma {:induction false} RemoveAbsent(list: seq<Job>, id: string)
    requires !Has(list, id)
    ensures RemoveFirst(list, id) == list
  {
    if list != [] {
      assert list[0].id != id;
      var rest := list[1..];
      forall i | 0 <= i < |rest| ensures rest[i].id != id {
        assert rest[i] == list[i + 1];
      }
      RemoveAbsent(rest, id);
    }
  }

  lemma UniqueGrows(finished: seq<string>, id: string)
    requires Unique(finished) && id !in finished
    ensures Unique([id] + finished)
  {
  }

  lemma AccountedPush(list: seq<Job>, finished: seq<string>, cleared: set<string>, job: Job)
    requires Accounted(list, finished, cleared) && InOrder(list, finished, 0) && |list| <= HISTORY_LIMIT
    requires job.id !in finished
    ensures Accounted(FirstTen([job] + list), [job.id] + finished, cleared)
  {
    var list', finished' := FirstTen([job] + list), [job.id] + finished;
    assert list'[0].id == job.id;
    forall id | id in finished' ensures Has(list', id) || id in cleared || Rank(finished', id) >= HISTORY_LIMIT {
      assert finished'[1..] == finished;
      if id != job.id && Has(list, id) {
        var k :| 0 <= k < |list| && list[k].id == id;
        InOrderFrom(list, finished, 0, k);
        if k + 1 < HISTORY_LIMIT { assert list'[k + 1].id == id; }
      }
    }
  }

  lemma PushKeepsSpark(list: seq<Job>, finished: seq<string>, cleared: set<string>, job: Job)
    requires SparkOk(list, finished, cleared, job.spark) && job.status != Running && job.id !in finished
    ensures SparkOk(FirstTen([job] + RemoveFirst(list, job.id)), [job.id] + finished, cleared, job.spark)
    ensures FirstTen([job] + RemoveFirst(list, job.id))[0] == job
  {
    hide Unique, Accounted;
    if Has(list, job.id) { InOrderHas(list, finished, job.id); }
    RemoveAbsent(list, job.id);
    UniqueGrows(finished, job.id);
    InOrderBehind(list, finished, 0, job.id);
    assert ([job] + list)[1..] == list;
    assert InOrder([job] + list, [job.id] + finished, 0);
    if |[job] + list| > HISTORY_LIMIT {
      InOrderTake([job] + list, [job.id] + finished, 0, HISTORY_LIMIT);
    }
    AccountedPush(list, finished, cleared, job);
  }

  lemma {:induction false} RemainingIs(list: seq<Job>, spark: string, port: Option<int>, evenRunning: bool)
    ensures forall job :: job in Remaining(list, spark, port, evenRunning) <==>
              job in list && !(Clears(job, spark, port) && (evenRunning || job.status != Running))
    ensures |Remaining(list, spark, port, evenRunning)| <= |list|
  {
    if list != [] {
      RemainingIs(list[1..], spark, port, evenRunning);
      assert list == [list[0]] + list[1..];
    }
  }

  lemma ClearKeepsSpark(list: seq<Job>, finished: seq<string>, cleared: set<string>, spark: string, port: Option<int>)
    requires SparkOk(list, finished, cleared, spark)
    ensures SparkOk(Remaining(list, spark, port, true), finished,
                    cleared + set job | job in list && Clears(job, spark, port) :: job.id, spark)
  {
    var list', cleared' := Remaining(list, spark, port, true),
      cleared + set job | job in list && Clears(job, spark, port) :: job.id;
    RemainingIs(list, spark, port, true);
    InOrderRemaining(list, finished, 0, spark, port);
    forall id | id in finished ensures Has(list', id) || id in cleared' || Rank(finished, id) >= HISTORY_LIMIT {
      if Has(list, id) {
        var k :| 0 <= k < |list| && list[k].id == id;
        assert list[k] in list;
        if !Clears(list[k], spark, port) {
          assert list[k] in list';
          var i :| 0 <= i < |list'| && list'[i] == list[k];
        }
      }
    }
  }

  /** What is left of a list when jobs are taken out of it. */
  predicate IsPart(part: seq<Job>, list: seq<Job>) {
    || part == []
    || (list != [] && ((part[0] == list[0] && IsPart(part[1..], list[1..])) || IsPart(part, list[1..])))
  }

  /**
    Clearing keeps, in its order, exactly what is of another Spark or, when one port is named, of another port; in
    memory it keeps running jobs as well.
   */
  lemma {:induction false} ClearKeepsOthers(list: seq<Job>, spark: string, port: Option<int>, evenRunning: bool)
    ensures forall job :: job in Remaining(list, spark, port, evenRunning) <==>
              && job in list
              && (job.spark != spark || (port.Some? && job.port != port.value)
                  || (!evenRunning && job.status == Running))
    ensures IsPart(Remaining(list, spark, port, evenRunning), list)
  {
    RemainingIs(list, spark, port, evenRunning);
    if list != [] { ClearKeepsOthers(list[1..], spark, port, evenRunning); }
  }

  /**
    A loaded history has the first ten jobs of each Spark, and a job that was saved as running comes back as
    cancelled.
   */
  lemma RestoredIs(jobs: seq<Job>, i: nat)
    ensures |Restored(jobs)| == if |jobs| < 10 then |jobs| else 10
    ensures i < |Restored(jobs)| ==>
              Restored(jobs)[i] == if jobs[i].status == Running then jobs[i].(status := Cancelled) else jobs[i]
  {
  }

  lemma MoreCleared(list: seq<Job>, finished: seq<string>, cleared: set<string>, cleared': set<string>, spark: string)
    requires SparkOk(list, finished, cleared, spark) && cleared <= cleared'
    ensures SparkOk(list, finished, cleared', spark)
  {
    hide InOrder, Unique, Settled;
  }

  // --- All Sparks -----------------------------------------------------------------------------

  ghost predicate BookOk(book: Book) {
    forall s :: SparkOk(ListOf(book.history, s), FinishedOf(book, s), book.cleared, s)
  }

  /** The two books cannot be told apart by looking at any Spark. */
  ghost predicate SameBook(a: Book, b: Book) {
    && a.cleared == b.cleared
    && forall s :: ListOf(a.history, s) == ListOf(b.history, s) && FinishedOf(a, s) == FinishedOf(b, s)
  }

  lemma PushedAt(book: Book, job: Job, s: string)
    ensures ListOf(Pushed(book, job).history, s)
            == if s == job.spark then FirstTen([job] + RemoveFirst(ListOf(book.history, s), job.id))
               else ListOf(book.history, s)
    ensures FinishedOf(Pushed(book, job), s)
            == if s == job.spark then [job.id] + FinishedOf(book, s) else FinishedOf(book, s)
    ensures Pushed(book, job).cleared == book.cleared
  {
  }

  lemma PushKeepsBook(book: Book, job: Job)
    requires BookOk(book) && job.status != Running && job.id !in FinishedOf(book, job.spark)
    ensures BookOk(Pushed(book, job))
    ensures ListOf(Pushed(book, job).history, job.spark) != [] && ListOf(Pushed(book, job).history, job.spark)[0] == job
  {
    hide SparkOk, Pushed;
    PushKeepsSpark(ListOf(book.history, job.spark), FinishedOf(book, job.spark), book.cleared, job);
    PushedNonEmpty(book, job);
    forall s
      ensures SparkOk(ListOf(Pushed(book, job).history, s), FinishedOf(Pushed(book, job), s),
                      Pushed(book, job).cleared, s)
    {
      PushedAt(book, job, s);
    }
    PushedAt(book, job, job.spark);
  }

  lemma PushedNonEmpty(book: Book, job: Job)
    ensures ListOf(Pushed(book, job).history, job.spark) != []
  {
  }

  lemma ClearedAt(book: Book, spark: string, port: Option<int>, s: string)
    ensures var after := ClearedBook(book, spark, port);
            && ListOf(after.history, s)
               == (if s == spark then Remaining(ListOf(book.history, s), spark, port, true)
                   else ListOf(book.history, s))
            && FinishedOf(after, s) == FinishedOf(book, s)
            && after.cleared == book.cleared + set job | job in ListOf(book.history, spark)
               && Clears(job, spark, port) :: job.id
  {
  }

  lemma ClearKeepsBook(book: Book, spark: string, port: Option<int>)
    requires BookOk(book)
    ensures BookOk(ClearedBook(book, spark, port))
  {
    hide SparkOk, ClearedBook, Remaining;
    var after := ClearedBook(book, spark, port);
    forall s ensures SparkOk(ListOf(after.history, s), FinishedOf(after, s), after.cleared, s) {
      ClearedAt(book, spark, port, s);
      if s == spark {
        ClearKeepsSpark(ListOf(book.history, s), FinishedOf(book, s), book.cleared, spark, port);
      } else {
        MoreCleared(ListOf(book.history, s), FinishedOf(book, s), book.cleared, after.cleared, s);
      }
    }
  }

  lemma RestoredSame(list: seq<Job>, finished: seq<string>, cleared: set<string>, spark: string)
    requires SparkOk(list, finished, cleared, spark)
    ensures Restored(list) == list
  {
    forall i | 0 <= i < |list| ensures list[i].status != Running {
      assert list[i] in list;
    }
  }

  /** Loading a history that was saved by the manager changes nothing. */
  lemma LoadedSame(book: Book)
    requires BookOk(book)
    ensures SameBook(book.(history := LoadedHistory(book.history)), book)
    ensures BookOk(book.(history := LoadedHistory(book.history)))
  {
    hide SparkOk, Restored;
    var loaded := book.(history := LoadedHistory(book.history));
    forall s ensures ListOf(loaded.history, s) == ListOf(book.history, s) {
      RestoredSame(ListOf(book.history, s), FinishedOf(book, s), book.cleared, s);
    }
    forall s ensures FinishedOf(loaded, s) == FinishedOf(book, s) {
    }
    SameBookOk(book, loaded);
  }

  lemma SameBookOk(a: Book, b: Book)
    requires BookOk(a) && SameBook(a, b)
    ensures BookOk(b)
  {
    hide SparkOk;
    forall s ensures SparkOk(ListOf(b.history, s), FinishedOf(b, s), b.cleared, s) {
      assert SparkOk(ListOf(a.history, s), FinishedOf(a, s), a.cleared, s);
    }
  }
}
