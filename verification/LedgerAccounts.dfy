/**
  Which model is credited, with how much, and on which day (server/llmtokens/LlmTokenLedger.js:228-320): each model's
  figures are the steps of its own readings, over whole runs.
 */
module LedgerAccounts {
  import opened Options
  import opened FiniteSets
  import opened LedgerState
  import opened LedgerFile
  import opened LedgerRuns
  import opened RealArithmetic

  // --- One reading ----------------------------------------------------------------------------

  /** What a counter grew; a decrease, or more than a billion tokens at once, is not credible and counts as nothing. */
  function Credible(before: real, after: real): real {
    if 0.0 < after - before <= 1_000_000_000.0 then after - before else 0.0
  }

  function CredibleIfKnown(before: Option<real>, after: Option<real>): real {
    if before.Some? && after.Some? then Credible(before.value, after.value) else 0.0
  }

  /**
    What a reading adds to the counters of the reading before, all of it void when the output counter is not credible.
   */
  function Step(before: Counters, obs: Observation): Row {
    if before.output.None? || !(0.0 <= obs.output - before.output.value <= 1_000_000_000.0) then Row(0.0, 0.0, 0.0)
    else
      var prompt, output := CredibleIfKnown(before.prompt, obs.prompt), Credible(before.output.value, obs.output);
      Row(prompt, output, if prompt > 0.0 || output > 0.0 then CredibleIfKnown(before.cached, obs.cached) else 0.0)
  }

  /** The figures of a row after a step: each saturates, and prompt tokens are raised to the cached ones if need be. */
  predicate Raised(before: Row, step: Row, after: Row) {
    && after.completion == Min(before.completion + step.completion, 9_007_199_254_740_991.0)
    && after.cached == Min(before.cached + step.cached, 9_007_199_254_740_991.0)
    && after.prompt == Max(Min(before.prompt + step.prompt, 9_007_199_254_740_991.0), after.cached)
  }

  lemma CreditRaises(row: Row, c: Credit)
    requires RowOk(row) && 0.0 <= c.output && 0.0 <= c.prompt && 0.0 <= c.cached
    ensures Raised(row, Row(c.prompt, c.output, c.cached), CreditRow(row, c))
  {
  }

  /** The model that a reading is booked on: the one it names, else the one given, else "unknown". */
  function Named(obs: Observation, last: Option<string>): string {
    match obs.modelId
    case Some(name) => name
    case None => match last case Some(name) => name case None => "unknown"
  }

  /**
    A reading that names a model raises that model's lifetime row, and its row of the day that holds `now`, by its step.
    A reading without a name raises the rows of the last model that was named, or of "unknown". No other row changes.
   */
  lemma ReadingCredits(s: Series, obs: Observation, now: int, day: int, model: string)
    requires SeriesOk(s) && day * 86_400_000 <= now < (day + 1) * 86_400_000
    ensures var after, step := Observed(s, obs, now), Step(s.counters, obs);
            && (if model == Named(obs, s.lastModelId)
                then && Raised(LifetimeAt(s.models, model), step, LifetimeAt(after.models, model))
                     && Raised(TokensAt(DayAt(s.daily, day), model), step, TokensAt(DayAt(after.daily, day), model))
                else && (model in after.models <==> model in s.models)
                     && (model in s.models ==> after.models[model] == s.models[model])
                     && TokensAt(DayAt(after.daily, day), model) == TokensAt(DayAt(s.daily, day), model))
            && forall d :: d != day ==> DayAt(after.daily, d) == DayAt(s.daily, d)
    ensures var after, step := Observed(s, obs, now), Step(s.counters, obs);
            && after.counters == Counters(Some(obs.output), obs.prompt, obs.cached) && after.updatedAt == now
            && (model == Named(obs, s.lastModelId) && (step.prompt > 0.0 || step.completion > 0.0) ==>
                  model in after.models && after.models[model].lastSeenAt == now)
  {
    hide CreditRow, RowOk, Raised;
    DayIs(now, day);
    RowsAtAreOk(s, day, model);
    StepOfCredit(s, obs);
    if CreditOf(s, obs).Some? {
      CreditRaises(LifetimeAt(s.models, model), CreditOf(s, obs).value);
      CreditRaises(TokensAt(DayAt(s.daily, day), model), CreditOf(s, obs).value);
    } else {
      NothingRaised(LifetimeAt(s.models, model));
      NothingRaised(TokensAt(DayAt(s.daily, day), model));
    }
  }

  lemma DayIs(now: int, day: int)
    requires day * 86_400_000 <= now < (day + 1) * 86_400_000
    ensures DayOf(now) == day
  {
  }

  lemma NothingRaised(row: Row)
    requires RowOk(row)
    ensures Raised(row, Row(0.0, 0.0, 0.0), row)
  {
  }

  lemma RowsAtAreOk(s: Series, day: int, model: string)
    requires SeriesOk(s)
    ensures RowOk(LifetimeAt(s.models, model)) && RowOk(TokensAt(DayAt(s.daily, day), model))
  {
  }

  lemma StepOfCredit(s: Series, obs: Observation)
    ensures var step := Step(s.counters, obs);
            match CreditOf(s, obs)
            case None => step == Row(0.0, 0.0, 0.0)
            case Some(c) => step == Row(c.prompt, c.output, c.cached) && c.model == Named(obs, s.lastModelId)
  {
  }

  // --- A list of readings ---------------------------------------------------------------------

  /** The last model that the readings named. */
  function LastNamed(readings: seq<Observation>): Option<string> {
    if readings == [] then None
    else
      var name := readings[|readings| - 1].modelId;
      if name.Some? && name.value != "" then name else LastNamed(readings[..|readings| - 1])
  }

  function CountersOf(readings: seq<Observation>): Counters {
    if readings == [] then Counters(None, None, None)
    else
      var last := readings[|readings| - 1];
      Counters(Some(last.output), last.prompt, last.cached)
  }

  function Added(a: Row, b: Row): Row {
    Row(a.prompt + b.prompt, a.completion + b.completion, a.cached + b.cached)
  }

  /** The steps of those readings that are booked on a model, summed up. */
  function OwnSteps(readings: seq<Observation>, model: string): Row {
    if readings == [] then Row(0.0, 0.0, 0.0)
    else
      var rest, last := readings[..|readings| - 1], readings[|readings| - 1];
      if Named(last, LastNamed(rest)) == model then Added(OwnSteps(rest, model), Step(CountersOf(rest), last))
      else OwnSteps(rest, model)
  }

  /** Completion and cached tokens are the own steps, up to the ceiling; prompt tokens may have absorbed cached ones. */
  predicate Totals(row: Row, own: Row) {
    && row.completion == Min(own.completion, 9_007_199_254_740_991.0)
    && row.cached == Min(own.cached, 9_007_199_254_740_991.0)
    && Max(Min(own.prompt, 9_007_199_254_740_991.0), row.cached) <= row.prompt
       <= Min(own.prompt + own.cached, 9_007_199_254_740_991.0)
  }

  /** The series is what these readings made of it. */
  ghost predicate Booked(s: Series, readings: seq<Observation>) {
    && SeriesOk(s)
    && s.counters == CountersOf(readings) && s.lastModelId == LastNamed(readings)
    && forall model :: Totals(LifetimeAt(s.models, model), OwnSteps(readings, model))
  }

  lemma RaisedTotals(before: Row, step: Row, after: Row, own: Row)
    requires Raised(before, step, after) && Totals(before, own)
    requires 0.0 <= step.prompt && 0.0 <= step.completion && 0.0 <= step.cached
    ensures Totals(after, Added(own, step))
  {
  }

  lemma StepNonNegative(before: Counters, obs: Observation)
    ensures var step := Step(before, obs); 0.0 <= step.prompt && 0.0 <= step.completion && 0.0 <= step.cached
  {
  }

  lemma {:induction false} ReadingBooked(s: Series, obs: Observation, now: int, readings: seq<Observation>)
    requires Booked(s, readings)
    ensures Booked(Observed(s, obs, now), readings + [obs])
  {
    hide SeriesOk, Totals, Raised, Observed, Step;
    assert (readings + [obs])[..|readings|] == readings;
    var after, day := Observed(s, obs, now), now / 86_400_000;
    ObservedKeepsOk(s, obs, now);
    LastNameKept(s, obs, now);
    DayHolds(now);
    StepNonNegative(s.counters, obs);
    forall model ensures Totals(LifetimeAt(after.models, model), OwnSteps(readings + [obs], model)) {
      ReadingCredits(s, obs, now, day, model);
      if model == Named(obs, s.lastModelId) {
        RaisedTotals(LifetimeAt(s.models, model), Step(s.counters, obs), LifetimeAt(after.models, model),
                     OwnSteps(readings, model));
      }
    }
    ReadingCredits(s, obs, now, day, "");
  }

  lemma DayHolds(now: int)
    ensures now / 86_400_000 * 86_400_000 <= now < (now / 86_400_000 + 1) * 86_400_000
  {
  }

  lemma LastNameKept(s: Series, obs: Observation, now: int)
    ensures Observed(s, obs, now).lastModelId
            == if obs.modelId.Some? && obs.modelId.value != "" then obs.modelId else s.lastModelId
  {
  }

  lemma NothingBooked()
    ensures Booked(NEW_SERIES, [])
  {
  }

  // --- Whole runs -------------------------------------------------------------------------------

  /** The readings of one series in a batch, in order. */
  function ReadingsIn(batch: seq<Observation>, id: SeriesId): seq<Observation> {
    if batch == [] then []
    else
      var rest, last := ReadingsIn(batch[..|batch| - 1], id), batch[|batch| - 1];
      if last.id == id then rest + [last] else rest
  }

  lemma {:induction false} BatchBooked(ledger: Ledger, batch: seq<Observation>, now: int, id: SeriesId,
                                       readings: seq<Observation>)
    requires Booked(SeriesAt(ledger, id), readings)
    ensures Booked(SeriesAt(ObservedAll(ledger, batch, now), id), readings + ReadingsIn(batch, id))
  {
    hide Booked, Observed;
    if batch == [] {
      assert readings + [] == readings;
    } else {
      var rest, last := batch[..|batch| - 1], batch[|batch| - 1];
      BatchBooked(ledger, rest, now, id, readings);
      if last.id == id {
        ReadingBooked(SeriesAt(ObservedAll(ledger, rest, now), id), last, now, readings + ReadingsIn(rest, id));
        assert readings + ReadingsIn(rest, id) + [last] == readings + (ReadingsIn(rest, id) + [last]);
      }
    }
  }

  /** The readings of a series that memory has heard, and those that were heard before the last save. */
  datatype Log = Log(heard: seq<Observation>, saved: seq<Observation>)

  /** A crash forgets what was heard since the last save. */
  function LogAfter(log: Log, s: System, e: Event, id: SeriesId): Log {
    match e
    case Record(batch, _) => log.(heard := log.heard + ReadingsIn(batch, id))
    case Flush => if s.dirty then log.(saved := log.heard) else log
    case Crash => log.(heard := log.saved)
  }

  ghost function LogOf(systems: seq<System>, events: seq<Event>, k: nat, id: SeriesId): Log
    requires |systems| == |events| + 1 && k <= |events|
  {
    if k == 0 then Log([], []) else LogAfter(LogOf(systems, events, k - 1, id), systems[k - 1], events[k - 1], id)
  }

  lemma PruningKeepsName(before: Ledger, after: Ledger, id: SeriesId)
    requires Pruned(before, after)
    ensures id in after ==> id in before && after[id].lastModelId == before[id].lastModelId
  {
    hide NewestDays, ModelsEvicted;
    var kept: Ledger :| SeriesEvicted(before, kept, MAX_SERIES) && kept.Keys == after.Keys
                        && forall i :: i in after ==> SeriesPruned(kept[i], after[i]);
    if id in after { assert SeriesPruned(kept[id], after[id]); }
  }

  /** Pruning that evicts neither the series nor a model leaves the last named model, too. */
  lemma UntouchedKeepsName(s: System, e: Event, s': System, id: SeriesId, readings: seq<Observation>)
    requires e.Record? && Next(s, e, s') && ModelsUntouched(s, e, s', id) && LedgerOk(s'.memory)
    requires Booked(SeriesAt(ObservedAll(s.memory, e.batch, e.now), id), readings)
    ensures Booked(SeriesAt(s'.memory, id), readings)
  {
    hide ObservedAll, Totals, SeriesOk, ChangesAny, Pruned, OwnSteps;
    NewSeriesOk();
    if ChangesAny(s.memory, e.batch, e.now) {
      PruningKeepsName(ObservedAll(s.memory, e.batch, e.now), s'.memory, id);
    }
  }

  /**
    Over any run with flushes and, with whole counters, crashes, while neither the series nor one of its models is
    evicted: every model's completion and cached tokens are the sums of the steps of its own readings, up to the
    ceiling, and its prompt tokens are at least the sum of theirs.
   */
  lemma {:induction false} EachModelGetsItsOwn(systems: seq<System>, events: seq<Event>, k: nat, id: SeriesId)
    requires IsRun(systems, events) && WholeOrUninterrupted(events) && ModelsNeverTouched(systems, events, id)
    requires k <= |events|
    ensures var log := LogOf(systems, events, k, id);
            Booked(SeriesAt(systems[k].memory, id), log.heard) && Booked(SeriesAt(systems[k].saved, id), log.saved)
  {
    hide Booked, Recorded, LedgerOk, LedgerWhole, SanitizeLedger, LedgerJson, ObservedAll, ModelsUntouched;
    if k == 0 {
      NothingBooked();
    } else {
      EachModelGetsItsOwn(systems, events, k - 1, id);
      CrashRestores(systems, events, k - 1);
      EveryRunIsOk(systems, events, k);
      var s, e, s', log := systems[k - 1], events[k - 1], systems[k], LogOf(systems, events, k - 1, id);
      assert Next(s, e, s') && ModelsUntouched(s, e, s', id);
      if e.Record? {
        BatchBooked(s.memory, e.batch, e.now, id, log.heard);
        UntouchedKeepsName(s, e, s', id, log.heard + ReadingsIn(e.batch, id));
      }
    }
  }

  // --- Eviction ---------------------------------------------------------------------------------

  lemma NewestSize(days: set<int>, n: nat)
    ensures |Newest(days, n)| <= n
  {
    var newest := Newest(days, n);
    if newest != {} {
      var least := MinimumExists(newest);
      SubsetSize(newest - {least}, Newer(days, least));
    }
  }

  lemma AllNewest(days: set<int>, n: nat)
    requires |days| <= n
    ensures Newest(days, n) == days
  {
    forall d | d in days ensures d in Newest(days, n) {
      SubsetSize(Newer(days, d), days - {d});
    }
  }

  /**
    A pruning leaves at most 200 series, 100 models of a series and 35 days of it, touches nothing else, evicts nothing
    while there is room, and evicts only what was updated, seen or dated no later than all that stays.
   */
  lemma PruningLimits(before: Ledger, after: Ledger)
    requires Pruned(before, after)
    ensures |after| <= 200 && after.Keys <= before.Keys && (|before| <= 200 ==> after.Keys == before.Keys)
    ensures forall s, t :: s in before && s !in after && t in after ==> before[s].updatedAt <= before[t].updatedAt
    ensures forall s :: s in after ==> SeriesWithin(before[s], after[s])
  {
    hide SeriesPruned, SeriesWithin;
    var kept: Ledger :| SeriesEvicted(before, kept, MAX_SERIES) && kept.Keys == after.Keys
                        && forall i :: i in after ==> SeriesPruned(kept[i], after[i]);
    assert |kept.Keys| == |kept| && |after.Keys| == |after| && |before.Keys| == |before|;
    if |before| <= 200 { SameSize(kept.Keys, before.Keys); }
    forall s | s in after ensures SeriesWithin(before[s], after[s]) {
      assert SeriesPruned(kept[s], after[s]);
      PrunedWithin(before[s], after[s]);
    }
  }

  lemma SameSize<T>(a: set<T>, b: set<T>)
    requires a <= b && |a| == |b|
    ensures a == b
  {
    SubsetSize(b - a, {});
    if x :| x in b && x !in a { SubsetSize(a, b - {x}); }
  }

  predicate SeriesWithin(before: Series, after: Series) {
    && after == before.(models := after.models, daily := after.daily)
    && |after.models| <= 100 && after.models.Keys <= before.models.Keys
    && (|before.models| <= 100 ==> after.models.Keys == before.models.Keys)
    && (forall m :: m in after.models ==> after.models[m] == before.models[m])
    && (forall m, n :: m in before.models && m !in after.models && n in after.models ==>
          before.models[m].lastSeenAt <= before.models[n].lastSeenAt)
    && |after.daily| <= 35 && after.daily.Keys <= before.daily.Keys
    && (|before.daily| <= 35 ==> after.daily.Keys == before.daily.Keys)
    && (forall d :: d in after.daily ==> after.daily[d] == before.daily[d])
    && (forall d, e :: d in before.daily && d !in after.daily && e in after.daily ==> d < e)
  }

  lemma PrunedWithin(before: Series, after: Series)
    requires SeriesPruned(before, after)
    ensures SeriesWithin(before, after)
  {
    hide Newest;
    assert |after.models.Keys| == |after.models| && |before.models.Keys| == |before.models|;
    assert |after.daily.Keys| == |after.daily| && |before.daily.Keys| == |before.daily|;
    if |before.models| <= 100 { SameSize(after.models.Keys, before.models.Keys); }
    assert after.daily.Keys == Newest(before.daily.Keys, 35) by { NewestIsPart(before.daily.Keys, 35); }
    NewestSize(before.daily.Keys, 35);
    if |before.daily| <= 35 { AllNewest(before.daily.Keys, 35); }
    NewestIsPart(before.daily.Keys, 35);
  }

  lemma NewestIsPart(days: set<int>, n: nat)
    ensures Newest(days, n) <= days
    ensures forall d, e :: d in days && d !in Newest(days, n) && e in Newest(days, n) ==> d < e
  {
    forall d, e | d in days && d !in Newest(days, n) && e in Newest(days, n) ensures d < e {
      if e <= d { SubsetSize(Newer(days, d), Newer(days, e)); }
    }
  }
}
