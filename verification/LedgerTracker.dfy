/**
  The class of server/llmtokens/LlmTokenLedger.js: counters, rows and days updated in place, pruned in loops,
  written and read back. Every method is proved against LedgerState, LedgerFile and LedgerRanges, so the
  theorems of LedgerDays, LedgerRanges and LedgerRuns speak about it.
 */
module LedgerTracker {
  import opened Options
  import opened FiniteSets
  import opened FiniteSums
  import opened LedgerState
  import opened LedgerDays
  import opened LedgerFile
  import opened LedgerRanges

  /** A delta that is known and positive. */
  function Positive(delta: Option<real>): real {
    if delta.Some? && delta.value > 0.0 then delta.value else 0.0
  }

  /** Adds the deltas of one observation to a row, then lifts the prompt tokens to the cached ones. */
  method AddDeltas(row: Row, dOut: real, dIn: Option<real>, dCached: Option<real>, ghost model: string)
    returns (updated: Row)
    ensures updated == CreditRow(row, Credit(model, dOut, Positive(dIn), Positive(dCached)))
  {
    updated := row;
    if dOut > 0.0 {
      updated := updated.(completion := AddTokens(updated.completion, dOut));
    }
    if dIn.Some? && dIn.value > 0.0 {
      updated := updated.(prompt := AddTokens(updated.prompt, dIn.value));
    }
    if dCached.Some? && dCached.value > 0.0 {
      updated := updated.(cached := AddTokens(updated.cached, dCached.value));
    }
    if updated.cached > updated.prompt {
      updated := updated.(prompt := AddTokens(updated.prompt, updated.cached - updated.prompt));
    }
  }

  /** Difference of two optional readings, dropped when it is negative or implausible. */
  method Delta(reading: Option<real>, base: Option<real>) returns (delta: Option<real>)
    ensures Positive(delta) == Growth(reading, base)
  {
    delta := None;
    if reading.Some? && base.Some? {
      delta := Some(reading.value - base.value);
    }
    if delta.Some? && (delta.value < 0.0 || delta.value > MAX_CREDITABLE_DELTA) {
      delta := None;
    }
  }

  // --- Pruning one series ---------------------------------------------------------------------

  method LeastRecentlySeen(models: map<string, ModelRow>) returns (oldest: string)
    requires models.Keys != {}
    ensures oldest in models && forall m :: m in models ==> models[oldest].lastSeenAt <= models[m].lastSeenAt
  {
    oldest := TakeAny(models.Keys);
    var rest := models.Keys - {oldest};
    while rest != {}
      invariant rest <= models.Keys && oldest in models
      invariant forall m :: m in models.Keys - rest ==> models[oldest].lastSeenAt <= models[m].lastSeenAt
    {
      var m := TakeAny(rest);
      if models[m].lastSeenAt < models[oldest].lastSeenAt {
        oldest := m;
      }
      rest := rest - {m};
    }
  }

  /** Drops the least recently seen models beyond the maximum. */
  method EvictModels(models: map<string, ModelRow>) returns (kept: map<string, ModelRow>)
    ensures ModelsEvicted(models, kept, MAX_MODELS_PER_SERIES)
  {
    kept := models;
    while |kept| > MAX_MODELS_PER_SERIES
      invariant kept.Keys <= models.Keys && forall m :: m in kept ==> kept[m] == models[m]
      invariant forall m, n :: m in models && m !in kept && n in kept ==> models[m].lastSeenAt <= models[n].lastSeenAt
      invariant |kept| >= (if |models| > MAX_MODELS_PER_SERIES then MAX_MODELS_PER_SERIES else |models|)
      decreases |kept|
    {
      assert |kept.Keys| == |kept|;
      var oldest := LeastRecentlySeen(kept);
      OneFewer(kept, oldest);
      kept := kept - {oldest};
    }
    assert |kept.Keys| == |kept| && |models.Keys| == |models|;
    SubsetSize(kept.Keys, models.Keys);
  }

  lemma OneFewer<K, V>(table: map<K, V>, k: K)
    requires k in table
    ensures |table - {k}| == |table| - 1
  {
    var rest := table - {k};
    assert rest.Keys == table.Keys - {k};
    assert |rest.Keys| == |table.Keys| - 1;
    assert |rest.Keys| == |rest| && |table.Keys| == |table|;
  }

  method EarliestDay(days: set<int>) returns (earliest: int)
    requires days != {}
    ensures earliest in days && forall d :: d in days ==> earliest <= d
  {
    earliest := TakeAny(days);
    var rest := days - {earliest};
    while rest != {}
      invariant rest <= days && earliest in days
      invariant forall d :: d in days && d !in rest ==> earliest <= d
    {
      var d := TakeAny(rest);
      if d < earliest {
        earliest := d;
      }
      rest := rest - {d};
    }
  }

  /** Drops the oldest days beyond the newest 35. */
  method DropOldDays(daily: map<int, Day>) returns (kept: map<int, Day>)
    ensures kept == NewestDays(daily, MAX_DAILY_DAYS)
  {
    kept := daily;
    while |kept| > MAX_DAILY_DAYS
      invariant kept.Keys <= daily.Keys && forall d :: d in kept ==> kept[d] == daily[d]
      invariant UpperPart(kept.Keys, daily.Keys, MAX_DAILY_DAYS)
      decreases |kept|
    {
      assert |kept.Keys| == |kept|;
      var earliest := EarliestDay(kept.Keys);
      UpperPartShrinks(kept.Keys, daily.Keys, MAX_DAILY_DAYS, earliest);
      OneFewer(kept, earliest);
      assert (kept - {earliest}).Keys == kept.Keys - {earliest};
      kept := kept - {earliest};
    }
    assert |kept.Keys| == |kept|;
    UpperPartIsNewest(kept.Keys, daily.Keys, MAX_DAILY_DAYS);
  }

  // --- Adding up days -------------------------------------------------------------------------

  function AddRows(a: Row, b: Row): Row {
    Row(AddTokens(a.prompt, b.prompt), AddTokens(a.completion, b.completion), AddTokens(a.cached, b.cached))
  }

  function RowAt(rows: map<string, Row>, model: string): Row {
    if model in rows then rows[model] else NO_TOKENS
  }

  /** Adds the rows of one day to the figures gathered so far. */
  method AddDay(sums: map<string, Row>, day: Day) returns (more: map<string, Row>)
    ensures more.Keys == sums.Keys + day.Keys
    ensures forall m :: m in more ==> more[m] == if m in day then AddRows(RowAt(sums, m), day[m]) else sums[m]
  {
    more := sums;
    var rest := day.Keys;
    while rest != {}
      invariant rest <= day.Keys && more.Keys == sums.Keys + (day.Keys - rest)
      invariant forall m :: m in more ==>
                  more[m] == if m in day && m !in rest then AddRows(RowAt(sums, m), day[m]) else sums[m]
    {
      var m := TakeAny(rest);
      more := more[m := AddRows(RowAt(more, m), day[m])];
      rest := rest - {m};
    }
  }

  predicate RowNonNegative(row: Row) {
    0.0 <= row.prompt && 0.0 <= row.completion && 0.0 <= row.cached
  }

  predicate DaysNonNegative(daily: map<int, Day>) {
    forall d, m :: d in daily && m in daily[d] ==> RowNonNegative(daily[d][m])
  }

  /** The figures gathered are the saturated sums over the days taken so far. */
  ghost predicate Gathered(sums: map<string, Row>, daily: map<int, Day>) {
    && sums.Keys == ModelsOf(daily)
    && forall m :: m in sums ==> sums[m] == SumRow(daily, m)
  }

  lemma AddSaturated(sum: real, x: real)
    requires 0.0 <= x && 0.0 <= sum
    ensures AddTokens(Saturated(sum), x) == Saturated(sum + x)
    ensures AddTokens(0.0, x) == Saturated(x)
  {
  }

  lemma SumsNonNegative(daily: map<int, Day>, model: string)
    requires DaysNonNegative(daily)
    ensures 0.0 <= Sum(PromptByDay(daily, model)) && 0.0 <= Sum(CompletionByDay(daily, model))
    ensures 0.0 <= Sum(CachedByDay(daily, model))
  {
    forall d | d in daily ensures RowNonNegative(TokensAt(daily[d], model)) {
    }
    SumNonNegative(PromptByDay(daily, model));
    SumNonNegative(CompletionByDay(daily, model));
    SumNonNegative(CachedByDay(daily, model));
  }

  /** One more day, which was not among those taken. */
  lemma SumRowExtends(taken: map<int, Day>, d: int, day: Day, model: string)
    requires DaysNonNegative(taken) && d !in taken && forall m :: m in day ==> RowNonNegative(day[m])
    ensures SumRow(taken[d := day], model)
            == if model in day then AddRows(SumRow(taken, model), day[model]) else SumRow(taken, model)
  {
    hide PromptByDay, CompletionByDay, CachedByDay, AddTokens, Saturated;
    ByDayUpdated(taken, d, day, model);
    SumsNonNegative(taken, model);
    AddSaturated(Sum(PromptByDay(taken, model)), TokensAt(day, model).prompt);
    AddSaturated(Sum(CompletionByDay(taken, model)), TokensAt(day, model).completion);
    AddSaturated(Sum(CachedByDay(taken, model)), TokensAt(day, model).cached);
  }

  lemma {:induction false} SumRowOfNone(daily: map<int, Day>, model: string)
    requires DaysNonNegative(daily) && model !in ModelsOf(daily)
    ensures SumRow(daily, model) == NO_TOKENS
  {
    forall d | d in daily ensures TokensAt(daily[d], model) == NO_TOKENS {
    }
    SumSame(PromptByDay(daily, model), map[]);
    SumSame(CompletionByDay(daily, model), map[]);
    SumSame(CachedByDay(daily, model), map[]);
  }

  lemma GatheredExtends(sums: map<string, Row>, more: map<string, Row>, taken: map<int, Day>, d: int, day: Day)
    requires Gathered(sums, taken) && DaysNonNegative(taken) && d !in taken && forall m :: m in day ==>
               RowNonNegative(day[m])
    requires more.Keys == sums.Keys + day.Keys
    requires forall m :: m in more ==> more[m] == if m in day then AddRows(RowAt(sums, m), day[m]) else sums[m]
    ensures Gathered(more, taken[d := day])
  {
    hide SumRow, AddRows;
    assert ModelsOf(taken[d := day]) == ModelsOf(taken) + day.Keys by {
      ModelsExtend(taken, d, day);
    }
    forall m | m in more ensures more[m] == SumRow(taken[d := day], m) {
      SumRowExtends(taken, d, day, m);
      if m !in sums { SumRowOfNone(taken, m); }
    }
  }

  lemma ModelsExtend(taken: map<int, Day>, d: int, day: Day)
    requires d !in taken
    ensures ModelsOf(taken[d := day]) == ModelsOf(taken) + day.Keys
  {
    var after := taken[d := day];
    forall m ensures m in ModelsOf(after) <==> m in ModelsOf(taken) + day.Keys {
      if m in ModelsOf(taken) {
        var e :| e in taken && m in taken[e];
        assert e in after && after[e] == taken[e];
      }
      if m in day { assert d in after && after[d] == day; }
    }
  }

  lemma NothingGathered()
    ensures Gathered(map[], map[])
  {
  }

  /** Adds up, model by model, the days that a range covers. */
  method Aggregate(daily: map<int, Day>, wanted: set<int>) returns (sums: map<string, Row>)
    requires DaysNonNegative(daily)
    ensures Gathered(sums, InRange(daily, wanted))
  {
    hide Gathered;
    sums := map[];
    ghost var taken: map<int, Day> := map[];
    NothingGathered();
    var rest := daily.Keys;
    while rest != {}
      invariant rest <= daily.Keys
      invariant taken == map d | d in daily && d in wanted && d !in rest :: daily[d]
      invariant Gathered(sums, taken)
    {
      var d := TakeAny(rest);
      rest := rest - {d};
      if d !in wanted {
        continue;
      }
      var more := AddDay(sums, daily[d]);
      GatheredExtends(sums, more, taken, d, daily[d]);
      taken := taken[d := daily[d]];
      sums := more;
    }
    assert taken == InRange(daily, wanted);
  }

  /** Drops empty rows and keeps cached tokens within prompt tokens. */
  method ShowRows(sums: map<string, Row>) returns (rows: map<string, Row>)
    ensures rows == map m | m in sums && Shown(sums[m]) :: Clamped(sums[m])
  {
    rows := map[];
    var rest := sums.Keys;
    while rest != {}
      invariant rest <= sums.Keys
      invariant rows == map m | m in sums && m !in rest && Shown(sums[m]) :: Clamped(sums[m])
    {
      var m := TakeAny(rest);
      if Shown(sums[m]) {
        rows := rows[m := Clamped(sums[m])];
      }
      rest := rest - {m};
    }
  }

  lemma AnswerIsShown(sums: map<string, Row>, daily: map<int, Day>)
    requires Gathered(sums, daily)
    ensures (map m | m in sums && Shown(sums[m]) :: Clamped(sums[m])) == Answer(daily)
  {
    hide SumRow;
  }

  class LlmTokenLedger {
    var series: Ledger
    var dirty: bool

    constructor (file: Option<RawLedger>)
      ensures series == (if file.Some? then SanitizeLedger(file.value) else map[]) && !dirty
    {
      series, dirty := map[], false;
      new;
      if file.Some? {
        series := Sanitize(file.value);
      }
    }

    // --- Recording ----------------------------------------------------------------------------

    method Observe(obs: Observation, now: int) returns (changed: bool)
      modifies this`series
      ensures series == old(series)[obs.id := Observed(SeriesAt(old(series), obs.id), obs, now)]
      ensures changed <==> Changes(SeriesAt(old(series), obs.id), obs)
    {
      hide CreditRow, Growth, DayOf, DayAt, TokensAt, LifetimeAt;
      var s := SeriesAt(series, obs.id);
      var modelId := ModelFor(s, obs);
      if obs.modelId.Some? && obs.modelId.value != "" {
        s := s.(lastModelId := obs.modelId);
      }
      var base := s.counters;
      s := s.(counters := Counters(Some(obs.output), obs.prompt, obs.cached), updatedAt := now);
      series := series[obs.id := s];
      if base.output.None? {
        return true;
      }
      var dOut := obs.output - base.output.value;
      var dIn := Delta(obs.prompt, base.prompt);
      var dCached := Delta(obs.cached, base.cached);
      if dOut < 0.0 || dOut > MAX_CREDITABLE_DELTA {
        return true;
      }
      changed := false;
      if dOut > 0.0 || (dIn.Some? && dIn.value > 0.0) {
        var row := AddDeltas(LifetimeAt(s.models, modelId), dOut, dIn, dCached, modelId);
        var day := DayAt(s.daily, DayOf(now));
        var dayRow := AddDeltas(TokensAt(day, modelId), dOut, dIn, dCached, modelId);
        s := s.(models := s.models[modelId := ModelRow(row, now)],
                daily := s.daily[DayOf(now) := day[modelId := dayRow]]);
        series := series[obs.id := s];
        changed := true;
      }
    }

    /** Credits one batch of observations; prunes if anything changed. */
    method Record(observations: seq<Observation>, now: int) returns (changed: bool)
      modifies this
      ensures Recorded(old(series), observations, now, series)
      ensures changed <==> ChangesAny(old(series), observations, now)
      ensures dirty == (old(dirty) || changed)
    {
      hide Pruned, Observed, Changes;
      changed := false;
      ghost var start := series;
      for i := 0 to |observations|
        invariant series == ObservedAll(start, observations[..i], now)
        invariant changed <==> ChangesAny(start, observations[..i], now)
        invariant dirty == old(dirty)
      {
        assert observations[..i + 1][..i] == observations[..i];
        var one := Observe(observations[i], now);
        changed := changed || one;
      }
      assert observations[..|observations|] == observations;
      if changed {
        Prune();
        dirty := true;
      }
    }

    // --- Pruning ------------------------------------------------------------------------------

    method LeastRecentlyUpdated() returns (oldest: SeriesId)
      requires series.Keys != {}
      ensures oldest in series && forall s :: s in series ==> series[oldest].updatedAt <= series[s].updatedAt
    {
      oldest := TakeAny(series.Keys);
      var rest := series.Keys - {oldest};
      while rest != {}
        invariant rest <= series.Keys && oldest in series
        invariant forall s :: s in series.Keys - rest ==> series[oldest].updatedAt <= series[s].updatedAt
      {
        var s := TakeAny(rest);
        if series[s].updatedAt < series[oldest].updatedAt {
          oldest := s;
        }
        rest := rest - {s};
      }
    }

    /** Drops the least recently updated series beyond the maximum. */
    method EvictSeries()
      modifies this`series
      ensures SeriesEvicted(old(series), series, MAX_SERIES)
    {
      ghost var all := series;
      while |series| > MAX_SERIES
        invariant series.Keys <= all.Keys && forall s :: s in series ==> series[s] == all[s]
        invariant forall s, t :: s in all && s !in series && t in series ==> all[s].updatedAt <= all[t].updatedAt
        invariant |series| >= (if |all| > MAX_SERIES then MAX_SERIES else |all|)
        decreases |series|
      {
        assert |series.Keys| == |series|;
        var oldest := LeastRecentlyUpdated();
        OneFewer(series, oldest);
        series := series - {oldest};
      }
      assert |series.Keys| == |series| && |all.Keys| == |all|;
      SubsetSize(series.Keys, all.Keys);
    }

    method Prune()
      modifies this`series
      ensures Pruned(old(series), series)
    {
      hide SeriesEvicted, SeriesPruned;
      EvictSeries();
      ghost var kept := series;
      var rest := series.Keys;
      while rest != {}
        invariant rest <= series.Keys && series.Keys == kept.Keys
        invariant forall s :: s in rest ==> series[s] == kept[s]
        invariant forall s :: s in series.Keys - rest ==> SeriesPruned(kept[s], series[s])
      {
        var s := TakeAny(rest);
        var models := EvictModels(series[s].models);
        var daily := DropOldDays(series[s].daily);
        SeriesPrunedBy(series[s], models, daily);
        ghost var before := series;
        series := series[s := series[s].(models := models, daily := daily)];
        assert series.Keys == before.Keys;
        rest := rest - {s};
      }
    }

    // --- Persistence --------------------------------------------------------------------------

    /** Coerces every series of a parsed file. */
    static method Sanitize(raw: RawLedger) returns (out: Ledger)
      ensures out == SanitizeLedger(raw)
    {
      hide SanitizeSeries;
      out := map[];
      var rest := raw.Keys;
      while rest != {}
        invariant rest <= raw.Keys
        invariant out == map s | s in raw && s !in rest :: SanitizeSeries(raw[s])
      {
        var s := TakeAny(rest);
        var one := SanitizeOne(raw[s]);
        out := out[s := one];
        rest := rest - {s};
      }
    }

    static method SanitizeOne(raw: RawSeries) returns (s: Series)
      ensures s == SanitizeSeries(raw)
    {
      hide SanitizeRow;
      var models: map<string, ModelRow> := map[];
      var rest := raw.models.Keys;
      while rest != {}
        invariant rest <= raw.models.Keys
        invariant models == map m | m in raw.models
                  && m !in rest :: ModelRow(SanitizeRow(raw.models[m].tokens), TimeOr0(raw.models[m].lastSeenAt))
      {
        var m := TakeAny(rest);
        models := models[m := ModelRow(SanitizeRow(raw.models[m].tokens), TimeOr0(raw.models[m].lastSeenAt))];
        rest := rest - {m};
      }
      var daily := SanitizeDays(raw.daily);
      assert models == SanitizeModels(raw.models);
      s := Series(TimeOr0(raw.updatedAt), raw.lastModelId,
                  Counters(FiniteCount(raw.output), OptionalCount(raw.prompt), OptionalCount(raw.cached)), models,
                  daily);
    }

    static method SanitizeDays(raw: map<int, map<string, RawRow>>) returns (daily: map<int, Day>)
      ensures daily == SanitizeDaily(raw)
    {
      hide SanitizeRow;
      daily := map[];
      var rest := raw.Keys;
      while rest != {}
        invariant rest <= raw.Keys
        invariant daily == map d | d in raw && d !in rest :: SanitizeDay(raw[d])
      {
        var d := TakeAny(rest);
        var day: Day := map[];
        var models := raw[d].Keys;
        while models != {}
          invariant models <= raw[d].Keys
          invariant day == map m | m in raw[d] && m !in models :: SanitizeRow(raw[d][m])
        {
          var m := TakeAny(models);
          day := day[m := SanitizeRow(raw[d][m])];
          models := models - {m};
        }
        assert day == SanitizeDay(raw[d]);
        daily := daily[d := day];
        rest := rest - {d};
      }
    }

    /** Writes the ledger if anything changed since the last time. */
    method Flush() returns (written: Option<RawLedger>)
      modifies this`dirty
      ensures written == if old(dirty) then Some(LedgerJson(series)) else None
      ensures !dirty
    {
      if !dirty {
        return None;
      }
      written := Some(LedgerJson(series));
      dirty := false;
    }

    // --- Queries ------------------------------------------------------------------------------

    /** The rows and totals of one series over the days that a range covers. */
    method Range(id: SeriesId, now: int, dayCount: nat) returns (rows: map<string, Row>, totals: Row)
      requires id in series && DaysNonNegative(series[id].daily)
      ensures rows == RangeAnswer(series[id].daily, now, dayCount)
      ensures totals == Totals(rows)
    {
      hide Gathered, Answer, Totals;
      var daily := series[id].daily;
      var wanted := Days(now, dayCount);
      var sums := Aggregate(daily, wanted);
      AnswerIsShown(sums, InRange(daily, wanted));
      rows := ShowRows(sums);
      assert rows == RangeAnswer(daily, now, dayCount);
      RangeRowsNonNegative(daily, now, dayCount, rows);
      totals := AddUp(rows);
    }

    static method Days(now: int, dayCount: nat) returns (wanted: set<int>)
      ensures wanted == WantedDays(now, dayCount)
    {
      wanted := {};
      for i := 0 to dayCount
        invariant wanted == WantedDays(now, i)
      {
        wanted := wanted + {DayOf(now - i * DAY_MS)};
      }
    }

    static method AddUp(rows: map<string, Row>) returns (totals: Row)
      requires forall m :: m in rows ==> RowNonNegative(rows[m])
      ensures totals == Totals(rows)
    {
      hide Totals;
      totals := NO_TOKENS;
      ghost var added: map<string, Row> := map[];
      var rest := rows.Keys;
      TotalsOfNone();
      while rest != {}
        invariant rest <= rows.Keys
        invariant added == map m | m in rows && m !in rest :: rows[m]
        invariant forall m :: m in added ==> RowNonNegative(added[m])
        invariant totals == Totals(added)
      {
        var m := TakeAny(rest);
        TotalsExtend(added, m, rows[m]);
        totals := AddRows(totals, rows[m]);
        added := added[m := rows[m]];
        rest := rest - {m};
      }
      assert added == rows;
    }
  }

  lemma SeriesPrunedBy(s: Series, models: map<string, ModelRow>, daily: map<int, Day>)
    requires ModelsEvicted(s.models, models, MAX_MODELS_PER_SERIES) && daily == NewestDays(s.daily, MAX_DAILY_DAYS)
    ensures SeriesPruned(s, s.(models := models, daily := daily))
  {
  }

  lemma RangeRowsNonNegative(daily: map<int, Day>, now: int, dayCount: nat, rows: map<string, Row>)
    requires DaysNonNegative(daily) && rows == RangeAnswer(daily, now, dayCount)
    ensures forall m :: m in rows ==> RowNonNegative(rows[m])
  {
    forall m | m in rows ensures RowNonNegative(rows[m]) {
      SumsNonNegative(InRange(daily, WantedDays(now, dayCount)), m);
    }
  }

  lemma TotalsOfNone()
    ensures Totals(map[]) == NO_TOKENS
  {
  }

  lemma TotalsExtend(added: map<string, Row>, m: string, row: Row)
    requires m !in added && RowNonNegative(row) && forall n :: n in added ==> RowNonNegative(added[n])
    ensures Totals(added[m := row]) == AddRows(Totals(added), row)
  {
    var after := added[m := row];
    TotalsSums(added);
    assert Prompts(after) == Prompts(added)[m := row.prompt];
    SumUpdate(Prompts(added), m, row.prompt);
    assert Completions(after) == Completions(added)[m := row.completion];
    SumUpdate(Completions(added), m, row.completion);
    assert Cacheds(after) == Cacheds(added)[m := row.cached];
    SumUpdate(Cacheds(added), m, row.cached);
    AddSaturated(Sum(Prompts(added)), row.prompt);
    AddSaturated(Sum(Completions(added)), row.completion);
    AddSaturated(Sum(Cacheds(added)), row.cached);
  }

  lemma TotalsSums(rows: map<string, Row>)
    requires forall n :: n in rows ==> RowNonNegative(rows[n])
    ensures 0.0 <= Sum(Prompts(rows)) && 0.0 <= Sum(Completions(rows)) && 0.0 <= Sum(Cacheds(rows))
  {
    SumNonNegative(Prompts(rows));
    SumNonNegative(Completions(rows));
    SumNonNegative(Cacheds(rows));
  }
}
