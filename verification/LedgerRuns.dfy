/**
  Whole runs of the token ledger: batches of observations, flushes, and crashes that roll memory
  back to the last flush (server/llmtokens/LlmTokenLedger.js:131-336).
 */
module LedgerRuns {
  import opened Options
  import opened FiniteSums
  import opened LedgerState
  import opened LedgerDays
  import opened LedgerFile

  datatype Event = Record(batch: seq<Observation>, now: int) | Flush | Crash

  /** Output counters at which a series last started without a baseline. */
  type Seeds = map<SeriesId, real>

  /** The process's memory and the ledger last written, each with the readings it started from. */
  datatype System = System(memory: Ledger, dirty: bool, saved: Ledger, seeds: Seeds, savedSeeds: Seeds)

  const START := System(map[], false, map[], map[], map[])

  function SeedsAfter(ledger: Ledger, seeds: Seeds, batch: seq<Observation>, now: int): Seeds {
    if batch == [] then seeds
    else
      var rest, obs := batch[..|batch| - 1], batch[|batch| - 1];
      var before := SeedsAfter(ledger, seeds, rest, now);
      if SeriesAt(ObservedAll(ledger, rest, now), obs.id).counters.output.None? then before[obs.id := obs.output]
        else before
  }

  ghost predicate Next(s: System, e: Event, s': System) {
    match e
    case Record(batch, now) =>
      && Recorded(s.memory, batch, now, s'.memory)
      && s' == s.(memory := s'.memory, dirty := s.dirty || ChangesAny(s.memory, batch, now),
                  seeds := SeedsAfter(s.memory, s.seeds, batch, now))
    case Flush => s' == if s.dirty then s.(dirty := false, saved := s.memory, savedSeeds := s.seeds) else s
    case Crash => s' == s.(memory := SanitizeLedger(LedgerJson(s.saved)), dirty := false, seeds := s.savedSeeds)
  }

  ghost predicate IsRun(systems: seq<System>, events: seq<Event>) {
    && |systems| == |events| + 1
    && systems[0] == START
    && forall i :: 0 <= i < |events| ==> Next(systems[i], events[i], systems[i + 1])
  }

  // --- Rows -----------------------------------------------------------------------------------

  lemma NextKeepsOk(s: System, e: Event, s': System)
    requires Next(s, e, s') && LedgerOk(s.memory) && LedgerOk(s.saved)
    ensures LedgerOk(s'.memory) && LedgerOk(s'.saved)
  {
    hide SeriesOk, Recorded, SanitizeSeries, SeriesJson;
    match e
    case Record(batch, now) => RecordedKeepsOk(s.memory, batch, now, s'.memory);
    case Flush =>
    case Crash =>
      forall id | id in s.saved ensures SeriesOk(s'.memory[id]) {
        ReloadedOk(s.saved[id]);
      }
  }

  lemma ReloadedOk(s: Series)
    requires SeriesOk(s)
    ensures SeriesOk(SanitizeSeries(SeriesJson(s)))
  {
    hide SeriesOk, SanitizeSeries, SeriesJson;
    ReloadKeepsOk(s);
  }

  /**
    In every reachable ledger, in memory as on disk, every row has cached within prompt tokens and nothing beyond the
    ceiling.
   */
  lemma {:induction false} EveryRunIsOk(systems: seq<System>, events: seq<Event>, k: nat)
    requires IsRun(systems, events) && k <= |events|
    ensures LedgerOk(systems[k].memory) && LedgerOk(systems[k].saved)
  {
    hide LedgerOk, Next;
    if k == 0 {
      EmptyLedgerOk();
    } else {
      EveryRunIsOk(systems, events, k - 1);
      assert Next(systems[k - 1], events[k - 1], systems[k]);
      NextKeepsOk(systems[k - 1], events[k - 1], systems[k]);
    }
  }

  lemma EmptyLedgerOk()
    ensures LedgerOk(map[]) && LedgerWhole(map[])
  {
  }

  // --- Whole counters: restarts lose nothing but time ------------------------------------------

  predicate WholeEvent(e: Event) {
    e.Record? ==> forall obs :: obs in e.batch ==> WholeObservation(obs)
  }

  predicate WholeEvents(events: seq<Event>) {
    forall i :: 0 <= i < |events| ==> WholeEvent(events[i])
  }

  lemma PrunedKeepsWhole(before: Ledger, after: Ledger)
    requires Pruned(before, after) && LedgerWhole(before)
    ensures LedgerWhole(after)
  {
    PrunedKeepsOk(before, after) by {
      hide Pruned;
    }
    var kept: Ledger :| SeriesEvicted(before, kept, MAX_SERIES) && kept.Keys == after.Keys
                        && forall s :: s in after ==> SeriesPruned(kept[s], after[s]);
    forall s | s in after ensures SeriesWhole(after[s]) {
      assert SeriesPruned(kept[s], after[s]) && kept[s] == before[s];
      SeriesPrunedWhole(before[s], after[s]);
    }
  }

  lemma SeriesPrunedWhole(before: Series, after: Series)
    requires SeriesPruned(before, after) && SeriesWhole(before)
    ensures SeriesWhole(after)
  {
    hide RowOk, WholeRow;
  }

  lemma NextKeepsWhole(s: System, e: Event, s': System)
    requires Next(s, e, s') && LedgerWhole(s.memory) && LedgerWhole(s.saved) && WholeEvent(e)
    ensures LedgerWhole(s'.memory) && LedgerWhole(s'.saved)
    ensures e.Crash? ==> s'.memory == s.saved
  {
    hide LedgerWhole, Pruned, ChangesAny;
    match e
    case Record(batch, now) =>
      ObservedAllWhole(s.memory, batch, now);
      if ChangesAny(s.memory, batch, now) {
        PrunedKeepsWhole(ObservedAll(s.memory, batch, now), s'.memory);
      }
    case Flush =>
    case Crash => LedgerReloads(s.saved);
  }

  /** While all counters are whole numbers, what was flushed is exactly what comes back. */
  lemma {:induction false} EveryRunIsWhole(systems: seq<System>, events: seq<Event>, k: nat)
    requires IsRun(systems, events) && WholeEvents(events) && k <= |events|
    ensures LedgerWhole(systems[k].memory) && LedgerWhole(systems[k].saved)
    ensures SanitizeLedger(LedgerJson(systems[k].saved)) == systems[k].saved
  {
    hide LedgerWhole, Next, SanitizeLedger, LedgerJson;
    if k == 0 {
      EmptyLedgerOk();
    } else {
      EveryRunIsWhole(systems, events, k - 1);
      assert Next(systems[k - 1], events[k - 1], systems[k]);
      NextKeepsWhole(systems[k - 1], events[k - 1], systems[k]);
    }
    LedgerReloads(systems[k].saved);
  }

  /** Memory never falls back to the file, or all counters are whole numbers. */
  predicate WholeOrUninterrupted(events: seq<Event>) {
    WholeEvents(events) || forall i :: 0 <= i < |events| ==> !events[i].Crash?
  }

  /** A crash brings back what was saved. */
  lemma CrashRestores(systems: seq<System>, events: seq<Event>, k: nat)
    requires IsRun(systems, events) && WholeOrUninterrupted(events) && k < |events|
    ensures events[k].Crash? ==> systems[k + 1].memory == systems[k].saved
  {
    hide LedgerWhole, Recorded, SanitizeLedger, LedgerJson;
    if events[k].Crash? {
      EveryRunIsWhole(systems, events, k);
      assert Next(systems[k], events[k], systems[k + 1]);
    }
  }

  // --- Restarts: what a clean ledger and its file have in common --------------------------------

  /** Alike in all that is worth saving: the output counter and the rows. */
  ghost predicate SameAccount(a: Series, b: Series) {
    a.counters.output == b.counters.output && a.models == b.models && a.daily == b.daily
  }

  ghost predicate SameAccounts(a: Ledger, b: Ledger) {
    a.Keys == b.Keys && forall id :: id in a ==> SameAccount(a[id], b[id])
  }

  lemma {:induction false} QuietBatch(ledger: Ledger, batch: seq<Observation>, now: int)
    requires !ChangesAny(ledger, batch, now)
    ensures SameAccounts(ObservedAll(ledger, batch, now), ledger)
  {
    hide Observed, Changes;
    if batch != [] {
      var rest, obs := batch[..|batch| - 1], batch[|batch| - 1];
      QuietBatch(ledger, rest, now);
      var before := SeriesAt(ObservedAll(ledger, rest, now), obs.id);
      QuietObservation(before, obs, now);
      NewSeriesIsNotQuiet(obs);
    }
  }

  lemma NewSeriesIsNotQuiet(obs: Observation)
    ensures Changes(NEW_SERIES, obs)
  {
  }

  ghost predicate CleanMatches(s: System) {
    !s.dirty ==> SameAccounts(s.memory, s.saved)
  }

  lemma NextKeepsClean(s: System, e: Event, s': System)
    requires Next(s, e, s') && CleanMatches(s) && (e.Crash? ==> s'.memory == s.saved)
    ensures CleanMatches(s')
  {
    hide Pruned, ObservedAll, ChangesAny, SanitizeLedger, LedgerJson;
    if e.Record? && !s'.dirty {
      QuietBatch(s.memory, e.batch, e.now);
    }
  }

  /**
    While all counters are whole numbers, a clean ledger and what a load would make of its file have the same
    series, output counters, rows and days, at every point of every run.
   */
  lemma {:induction false} CleanMatchesFile(systems: seq<System>, events: seq<Event>, k: nat)
    requires IsRun(systems, events) && WholeEvents(events) && k <= |events|
    ensures !systems[k].dirty ==> SameAccounts(systems[k].memory, SanitizeLedger(LedgerJson(systems[k].saved)))
  {
    hide SameAccounts, SanitizeLedger, LedgerJson;
    RunStaysClean(systems, events, k);
    EveryRunIsWhole(systems, events, k);
  }

  lemma {:induction false} RunStaysClean(systems: seq<System>, events: seq<Event>, k: nat)
    requires IsRun(systems, events) && WholeEvents(events) && k <= |events|
    ensures CleanMatches(systems[k])
  {
    hide Next;
    if k > 0 {
      RunStaysClean(systems, events, k - 1);
      CrashRestores(systems, events, k - 1);
      assert Next(systems[k - 1], events[k - 1], systems[k]);
      NextKeepsClean(systems[k - 1], events[k - 1], systems[k]);
    }
  }

  /**
    When is a restart invisible? While the ledger is clean, all later credits of a series are those of the
    restarted ledger exactly when the optional baselines and the fallback model are those of the file.
   */
  lemma RestartIsInvisibleIff(systems: seq<System>, events: seq<Event>, k: nat, id: SeriesId)
    requires IsRun(systems, events) && WholeEvents(events) && k <= |events| && !systems[k].dirty
    ensures var running := SeriesAt(systems[k].memory, id);
            var restarted := SeriesAt(SanitizeLedger(LedgerJson(systems[k].saved)), id);
            CreditAlike(running, restarted) <==>
              && running.counters.prompt == restarted.counters.prompt
              && running.counters.cached == restarted.counters.cached
              && Fallback(running) == Fallback(restarted)
  {
    hide CreditAlike, Next, WholeEvents, Fallback, SanitizeLedger, LedgerJson, LedgerWhole, CountOk;
    CleanMatchesFile(systems, events, k);
    EveryRunIsWhole(systems, events, k);
    var running, restarted := SeriesAt(systems[k].memory, id), SeriesAt(systems[k].saved, id);
    CountersOk(systems[k].memory, id);
    CountersOk(systems[k].saved, id);
    BaselinesDecideCredits(running, restarted, id);
  }

  lemma CountersOk(ledger: Ledger, id: SeriesId)
    requires LedgerWhole(ledger)
    ensures var c := SeriesAt(ledger, id).counters; CountOk(c.output) && CountOk(c.prompt) && CountOk(c.cached)
    ensures SeriesAt(ledger, id).counters.output.Some? || SeriesAt(ledger, id) == NEW_SERIES
  {
  }

  /** Right after a flush that wrote something it always is: the file holds the whole of memory. */
  lemma RestartAfterFlushIsInvisible(systems: seq<System>, events: seq<Event>, k: nat, id: SeriesId)
    requires IsRun(systems, events) && WholeEvents(events) && k < |events| && events[k].Flush? && systems[k].dirty
    ensures CreditAlike(SeriesAt(systems[k + 1].memory, id),
                        SeriesAt(SanitizeLedger(LedgerJson(systems[k + 1].saved)), id))
  {
    hide Credits, SanitizeLedger, LedgerJson, WholeEvents, LedgerWhole;
    EveryRunIsWhole(systems, events, k + 1);
    assert Next(systems[k], events[k], systems[k + 1]);
  }

  // --- Both views of a series -----------------------------------------------------------------

  /** Pruning, if there was any, left this series alone. */
  ghost predicate Untouched(s: System, e: Event, s': System, id: SeriesId) {
    e.Record? ==> SeriesAt(s'.memory, id) == SeriesAt(ObservedAll(s.memory, e.batch, e.now), id)
  }

  ghost predicate NeverTouched(systems: seq<System>, events: seq<Event>, id: SeriesId)
    requires |systems| == |events| + 1
  {
    forall i :: 0 <= i < |events| ==> Untouched(systems[i], events[i], systems[i + 1], id)
  }

  ghost predicate Agreeing(s: Series) {
    SeriesOk(s) && ViewsAgree(s)
  }

  lemma {:induction false} ObservedAllAgrees(ledger: Ledger, batch: seq<Observation>, now: int, id: SeriesId)
    requires Agreeing(SeriesAt(ledger, id))
    ensures Agreeing(SeriesAt(ObservedAll(ledger, batch, now), id))
  {
    hide SeriesOk, ViewsAgree, Observed;
    if batch != [] {
      var rest, obs := batch[..|batch| - 1], batch[|batch| - 1];
      ObservedAllAgrees(ledger, rest, now, id);
      var before := ObservedAll(ledger, rest, now);
      if obs.id == id {
        ObservedKeepsOk(SeriesAt(before, id), obs, now);
        ObservedKeepsAgreement(SeriesAt(before, id), obs, now);
      }
    }
  }

  /**
    As long as no day and no model of a series was evicted, whatever crashes there were: each model's days
    sum to its lifetime completion and cached tokens, and to at least its lifetime prompt tokens.
   */
  lemma {:induction false} DaysMatchLifetime(systems: seq<System>, events: seq<Event>, k: nat, id: SeriesId)
    requires IsRun(systems, events) && WholeOrUninterrupted(events) && NeverTouched(systems, events, id)
    requires k <= |events|
    ensures Agreeing(SeriesAt(systems[k].memory, id)) && Agreeing(SeriesAt(systems[k].saved, id))
  {
    hide Agreeing, Recorded, LedgerWhole, SanitizeLedger, LedgerJson;
    if k == 0 {
      NewSeriesAgreeing();
    } else {
      DaysMatchLifetime(systems, events, k - 1, id);
      CrashRestores(systems, events, k - 1);
      var s, e, s' := systems[k - 1], events[k - 1], systems[k];
      assert Next(s, e, s') && Untouched(s, e, s', id);
      if e.Record? {
        ObservedAllAgrees(s.memory, e.batch, e.now, id);
      }
    }
  }

  /** The output counter of a model that reports nothing else. */
  function Only(id: SeriesId, model: string, output: real): Observation {
    Observation(id, Some(model), output, None, None)
  }

  /** Three readings of a new series, 0, 0.5 and 1: half a token on the first day and half a token on the second. */
  function HalvedSeries(id: SeriesId, model: string): Series {
    var started := Observed(NEW_SERIES, Only(id, model, 0.0), 0);
    var firstHalf := Observed(started, Only(id, model, 0.5), 0);
    Observed(firstHalf, Only(id, model, 1.0), DAY_MS)
  }

  const HALF := Row(0.0, 0.5, 0.0)
  const ONE := Row(0.0, 1.0, 0.0)

  /**
    With fractional counters a reload rounds each row on its own, and the views part: after three readings
    two half tokens become one each, but one in all.
   */
  lemma FractionsPartTheViews(id: SeriesId, model: string)
    ensures var s := HalvedSeries(id, model);
            && Agrees(LifetimeAt(s.models, model), s.daily, model)
            && !Agrees(LifetimeAt(Reloaded(s).models, model), Reloaded(s).daily, model)
  {
    hide CompletionByDay, CachedByDay, PromptByDay, Reloaded, HalvedSeries;
    HalvedRows(id, model);
    ReloadRounds(id, model);
    TwoDays(HalvedSeries(id, model).daily, model, HALF);
    TwoDays(Reloaded(HalvedSeries(id, model)).daily, model, ONE);
  }

  lemma HalvedRows(id: SeriesId, model: string)
    ensures var s := HalvedSeries(id, model);
            && s.models == map[model := ModelRow(ONE, DAY_MS)]
            && s.daily == map[0 := map[model := HALF], 1 := map[model := HALF]]
  {
    var started := Observed(NEW_SERIES, Only(id, model, 0.0), 0);
    var firstHalf := Observed(started, Only(id, model, 0.5), 0);
    assert firstHalf.models == map[model := ModelRow(HALF, 0)];
    assert firstHalf.daily == map[0 := map[model := HALF]];
  }

  lemma ReloadRounds(id: SeriesId, model: string)
    ensures var back := Reloaded(HalvedSeries(id, model));
            && back.daily == map[0 := map[model := ONE], 1 := map[model := ONE]]
            && LifetimeAt(back.models, model) == ONE
  {
    hide SanitizeRow, RowJson, HalvedSeries;
    RoundsToOne();
    HalvedRows(id, model);
    var back := Reloaded(HalvedSeries(id, model));
    assert SanitizeDay(DayJson(map[model := HALF])) == map[model := ONE];
    assert back.daily == map[0 := map[model := ONE], 1 := map[model := ONE]];
  }

  lemma RoundsToOne()
    ensures SanitizeRow(RowJson(HALF)) == ONE && SanitizeRow(RowJson(ONE)) == ONE
  {
    assert (0.5 + 0.5).Floor == 1 && (1.0 + 0.5).Floor == 1 && (0.0 + 0.5).Floor == 0;
  }

  lemma TwoDays(daily: map<int, Day>, model: string, row: Row)
    requires daily == map[0 := map[model := row], 1 := map[model := row]]
    ensures Sum(CompletionByDay(daily, model)) == row.completion + row.completion
    ensures Sum(CachedByDay(daily, model)) == row.cached + row.cached
    ensures Sum(PromptByDay(daily, model)) == row.prompt + row.prompt
  {
    SumOfTwo(CompletionByDay(daily, model), row.completion);
    SumOfTwo(CachedByDay(daily, model), row.cached);
    SumOfTwo(PromptByDay(daily, model), row.prompt);
  }

  lemma SumOfTwo(table: map<int, real>, x: real)
    requires table == map[0 := x, 1 := x]
    ensures Sum(table) == x + x
  {
    SumUpdate(map[], 0, x);
    SumUpdate(map[][0 := x], 1, x);
    assert table == map[][0 := x][1 := x];
  }

  lemma NewSeriesAgreeing()
    ensures Agreeing(NEW_SERIES)
  {
    hide ViewsAgree;
    NewSeriesAgrees();
  }

  // --- Telescoping ----------------------------------------------------------------------------

  function LifetimeCompletions(models: map<string, ModelRow>): map<string, real> {
    map m | m in models :: models[m].tokens.completion
  }

  /** Completion tokens over all models of a series. */
  ghost function TotalOutput(s: Series): real {
    Sum(LifetimeCompletions(s.models))
  }

  /** The series has credited exactly what its counter grew since the reading it started from. */
  ghost predicate Telescopes(s: Series, seed: Option<real>) {
    && SeriesOk(s)
    && match s.counters.output
       case None => s.models == map[]
       case Some(o) => seed.Some? && 0.0 <= seed.value && TotalOutput(s) == o - seed.value
  }

  function SeedAt(seeds: Seeds, id: SeriesId): Option<real> {
    if id in seeds then Some(seeds[id]) else None
  }

  /** The counter did not decrease, grew by at most a credible step, and is a safe integer. */
  predicate Steady(s: Series, obs: Observation) {
    && 0.0 <= obs.output <= MAX_TOKENS
    && (s.counters.output.Some? ==> 0.0 <= obs.output - s.counters.output.value <= MAX_CREDITABLE_DELTA)
  }

  predicate SteadyBatch(ledger: Ledger, batch: seq<Observation>, now: int, id: SeriesId) {
    batch == [] ||
    var rest, obs := batch[..|batch| - 1], batch[|batch| - 1];
    && SteadyBatch(ledger, rest, now, id)
    && (obs.id == id ==> Steady(SeriesAt(ObservedAll(ledger, rest, now), id), obs))
  }

  /** Every reading of this series' counter is steady with respect to what the ledger remembers at that time. */
  predicate SteadyRun(systems: seq<System>, events: seq<Event>, id: SeriesId)
    requires |systems| == |events| + 1
  {
    forall i :: 0 <= i < |events| && events[i].Record? ==>
      SteadyBatch(systems[i].memory, events[i].batch, events[i].now, id)
  }

  lemma CreditedTotal(models: map<string, ModelRow>, c: Credit, now: int, total: real)
    requires (forall m :: m in models ==> RowOk(models[m].tokens)) && total == Sum(LifetimeCompletions(models))
    requires 0.0 <= c.output && total + c.output <= MAX_TOKENS
    ensures Sum(LifetimeCompletions(CreditModels(models, c, now))) == total + c.output
  {
    var before, after := LifetimeCompletions(models), LifetimeCompletions(CreditModels(models, c, now));
    var row := LifetimeAt(models, c.model);
    assert At(before, c.model) == row.completion;
    SumNonNegative(before);
    var completion := CreditRow(row, c).completion;
    assert after == before[c.model := completion];
    SumUpdate(before, c.model, completion);
    assert completion == row.completion + c.output;
  }

  lemma ObservedTelescopes(s: Series, obs: Observation, now: int, seed: Option<real>)
    requires Telescopes(s, seed) && Steady(s, obs)
    ensures Telescopes(Observed(s, obs, now), if s.counters.output.None? then Some(obs.output) else seed)
  {
    hide SeriesOk, CreditModels, CreditDaily, LifetimeCompletions;
    ObservedKeepsOk(s, obs, now);
    if s.counters.output.None? {
      assert Observed(s, obs, now).models == map[];
      NothingCredited();
    } else if CreditOf(s, obs).Some? {
      OkModels(s);
      CreditedTotal(s.models, CreditOf(s, obs).value, now, TotalOutput(s));
    }
  }

  lemma OkModels(s: Series)
    requires SeriesOk(s)
    ensures forall m :: m in s.models ==> RowOk(s.models[m].tokens)
  {
  }

  lemma NothingCredited()
    ensures Sum(LifetimeCompletions(map[])) == 0.0
  {
  }

  lemma {:induction false} ObservedAllTelescopes(ledger: Ledger, seeds: Seeds, batch: seq<Observation>, now: int,
                                                 id: SeriesId)
    requires Telescopes(SeriesAt(ledger, id), SeedAt(seeds, id)) && SteadyBatch(ledger, batch, now, id)
    ensures Telescopes(SeriesAt(ObservedAll(ledger, batch, now), id), SeedAt(SeedsAfter(ledger, seeds, batch, now), id))
  {
    hide Telescopes, Observed, Steady;
    if batch != [] {
      var rest, obs := batch[..|batch| - 1], batch[|batch| - 1];
      ObservedAllTelescopes(ledger, seeds, rest, now, id);
      if obs.id == id {
        ObservedTelescopes(SeriesAt(ObservedAll(ledger, rest, now), id), obs, now,
                           SeedAt(SeedsAfter(ledger, seeds, rest, now), id));
      }
    }
  }

  /** Pruning, if there was any, evicted neither this series nor any of its models; its days it may have. */
  ghost predicate ModelsUntouched(s: System, e: Event, s': System, id: SeriesId) {
    e.Record? ==>
      var observed, after := SeriesAt(ObservedAll(s.memory, e.batch, e.now), id), SeriesAt(s'.memory, id);
      after.models == observed.models && after.counters == observed.counters
  }

  ghost predicate ModelsNeverTouched(systems: seq<System>, events: seq<Event>, id: SeriesId)
    requires |systems| == |events| + 1
  {
    forall i :: 0 <= i < |events| ==> ModelsUntouched(systems[i], events[i], systems[i + 1], id)
  }

  /** Telescoping is about models and counters only, so days may come and go. */
  lemma SameModelsTelescope(s: Series, t: Series, seed: Option<real>)
    requires Telescopes(s, seed) && SeriesOk(t) && t.models == s.models && t.counters == s.counters
    ensures Telescopes(t, seed)
  {
  }

  lemma RecordTelescopes(s: System, e: Event, s': System, id: SeriesId)
    requires e.Record? && Next(s, e, s') && ModelsUntouched(s, e, s', id) && LedgerOk(s'.memory)
    requires Telescopes(SeriesAt(s.memory, id), SeedAt(s.seeds, id)) && SteadyBatch(s.memory, e.batch, e.now, id)
    ensures Telescopes(SeriesAt(s'.memory, id), SeedAt(s'.seeds, id))
  {
    hide Telescopes, Recorded, SteadyBatch, SeedsAfter, SeriesOk, ObservedAll;
    ObservedAllTelescopes(s.memory, s.seeds, e.batch, e.now, id);
    NewSeriesOk();
    SameModelsTelescope(SeriesAt(ObservedAll(s.memory, e.batch, e.now), id), SeriesAt(s'.memory, id),
                        SeedAt(s'.seeds, id));
  }

  /**
    However model ids alternate, however many days pass and are dropped, and however often memory falls back
    to the last flush: while a series' counter is steady and neither it nor one of its models is evicted, its
    completion tokens over all models equal the counter's last value minus its first.
   */
  lemma {:induction false} OutputTelescopes(systems: seq<System>, events: seq<Event>, k: nat, id: SeriesId)
    requires IsRun(systems, events) && WholeOrUninterrupted(events)
    requires ModelsNeverTouched(systems, events, id) && SteadyRun(systems, events, id)
    requires k <= |events|
    ensures Telescopes(SeriesAt(systems[k].memory, id), SeedAt(systems[k].seeds, id))
    ensures Telescopes(SeriesAt(systems[k].saved, id), SeedAt(systems[k].savedSeeds, id))
  {
    hide Telescopes, Recorded, LedgerOk, LedgerWhole, SanitizeLedger, LedgerJson, SteadyBatch, SeedsAfter,
         ModelsUntouched;
    if k == 0 {
      NewSeriesTelescopes(None);
    } else {
      OutputTelescopes(systems, events, k - 1, id);
      CrashRestores(systems, events, k - 1);
      EveryRunIsOk(systems, events, k);
      var s, e, s' := systems[k - 1], events[k - 1], systems[k];
      assert Next(s, e, s') && ModelsUntouched(s, e, s', id);
      if e.Record? {
        RecordTelescopes(s, e, s', id);
      }
    }
  }

  lemma NewSeriesTelescopes(seed: Option<real>)
    ensures Telescopes(NEW_SERIES, seed)
  {
  }
}
