/**
  Range queries of the token ledger (server/llmtokens/LlmTokenLedger.js:372-436), and why dropping
  all but the newest 35 days cannot be seen through them.
 */
module LedgerRanges {
  import opened FiniteSets
  import opened FiniteSums
  import opened LedgerState
  import opened LedgerDays
  import opened LedgerFile
  import opened LedgerRuns
  import opened RealArithmetic

  /** The days that a range query covers: today and the days before it. */
  function WantedDays(now: int, dayCount: nat): (days: set<int>)
    ensures forall d :: d in days <==> DayOf(now) - dayCount < d <= DayOf(now)
    ensures |days| == dayCount
  {
    if dayCount == 0 then {} else WantedDays(now, dayCount - 1) + {DayOf(now - (dayCount - 1) * DAY_MS)}
  }

  function InRange(daily: map<int, Day>, wanted: set<int>): map<int, Day> {
    map d | d in daily && d in wanted :: daily[d]
  }

  function ModelsOf(daily: map<int, Day>): set<string> {
    set d, m | d in daily && m in daily[d] :: m
  }

  function Saturated(sum: real): real {
    Min(sum, MAX_TOKENS)
  }

  /** A model's figures over some days, each figure saturated. */
  ghost function SumRow(daily: map<int, Day>, model: string): Row {
    Row(Saturated(Sum(PromptByDay(daily, model))), Saturated(Sum(CompletionByDay(daily, model))),
        Saturated(Sum(CachedByDay(daily, model))))
  }

  function Clamped(row: Row): Row {
    row.(cached := Min(row.cached, row.prompt))
  }

  predicate Shown(row: Row) {
    row.prompt > 0.0 || row.completion > 0.0
  }

  /** What a query over some days answers for a series. */
  ghost function Answer(daily: map<int, Day>): map<string, Row> {
    map m | m in ModelsOf(daily) && Shown(SumRow(daily, m)) :: Clamped(SumRow(daily, m))
  }

  ghost function RangeAnswer(daily: map<int, Day>, now: int, dayCount: nat): map<string, Row> {
    Answer(InRange(daily, WantedDays(now, dayCount)))
  }

  function Prompts(rows: map<string, Row>): map<string, real> {
    map m | m in rows :: rows[m].prompt
  }

  function Completions(rows: map<string, Row>): map<string, real> {
    map m | m in rows :: rows[m].completion
  }

  function Cacheds(rows: map<string, Row>): map<string, real> {
    map m | m in rows :: rows[m].cached
  }

  ghost function Totals(rows: map<string, Row>): Row {
    Row(Saturated(Sum(Prompts(rows))), Saturated(Sum(Completions(rows))), Saturated(Sum(Cacheds(rows))))
  }

  // --- Larger ranges answer with larger figures ------------------------------------------------

  predicate AtMost(a: Row, b: Row) {
    a.prompt <= b.prompt && a.completion <= b.completion && a.cached <= b.cached
  }

  predicate SubDays(a: map<int, Day>, b: map<int, Day>) {
    forall d :: d in a ==> d in b && a[d] == b[d]
  }

  lemma TablesBelow(a: map<int, Day>, b: map<int, Day>, model: string)
    requires SubDays(a, b)
    ensures Below(PromptByDay(a, model), PromptByDay(b, model))
    ensures Below(CompletionByDay(a, model), CompletionByDay(b, model))
    ensures Below(CachedByDay(a, model), CachedByDay(b, model))
  {
    forall d | d in a
      ensures d in b && a[d] == b[d]
      ensures At(PromptByDay(b, model), d) == PromptByDay(a, model)[d]
      ensures At(CompletionByDay(b, model), d) == CompletionByDay(a, model)[d]
      ensures At(CachedByDay(b, model), d) == CachedByDay(a, model)[d]
    {
      assert d in PromptByDay(b, model) && d in CompletionByDay(b, model) && d in CachedByDay(b, model);
    }
  }

  lemma SumRowGrows(a: map<int, Day>, b: map<int, Day>, model: string)
    requires SubDays(a, b) && DailyOk(b)
    ensures AtMost(SumRow(a, model), SumRow(b, model))
    ensures 0.0 <= SumRow(a, model).prompt && 0.0 <= SumRow(a, model).completion && 0.0 <= SumRow(a, model).cached
  {
    TablesNonNegative(b, model);
    TablesNonNegative(a, model);
    TablesBelow(a, b, model);
    SumMonotone(PromptByDay(a, model), PromptByDay(b, model));
    SumMonotone(CompletionByDay(a, model), CompletionByDay(b, model));
    SumMonotone(CachedByDay(a, model), CachedByDay(b, model));
    SumNonNegative(PromptByDay(a, model));
    SumNonNegative(CompletionByDay(a, model));
    SumNonNegative(CachedByDay(a, model));
  }

  lemma AnswerGrows(a: map<int, Day>, b: map<int, Day>)
    requires SubDays(a, b) && DailyOk(b)
    ensures forall m :: m in Answer(a) ==> m in Answer(b) && AtMost(Answer(a)[m], Answer(b)[m])
    ensures forall m :: m in Answer(b) ==>
              0.0 <= Answer(b)[m].prompt && 0.0 <= Answer(b)[m].completion && 0.0 <= Answer(b)[m].cached
  {
    hide SumRow;
    forall m | m in Answer(a) ensures m in Answer(b) && AtMost(Answer(a)[m], Answer(b)[m]) {
      SumRowGrows(a, b, m);
    }
    forall m | m in Answer(b)
      ensures 0.0 <= Answer(b)[m].prompt && 0.0 <= Answer(b)[m].completion && 0.0 <= Answer(b)[m].cached
    {
      SumRowGrows(b, b, m);
    }
  }

  /** A longer range answers, for every model and in total, with at least the figures of a shorter one. */
  lemma RangesGrow(daily: map<int, Day>, now: int, shorter: nat, longer: nat)
    requires DailyOk(daily) && shorter <= longer
    ensures var a, b := RangeAnswer(daily, now, shorter), RangeAnswer(daily, now, longer);
            && (forall m :: m in a ==> m in b && AtMost(a[m], b[m]))
            && AtMost(Totals(a), Totals(b))
  {
    hide Answer;
    var a, b := RangeAnswer(daily, now, shorter), RangeAnswer(daily, now, longer);
    AnswerGrows(InRange(daily, WantedDays(now, shorter)), InRange(daily, WantedDays(now, longer)));
    SumMonotone(Prompts(a), Prompts(b));
    SumMonotone(Completions(a), Completions(b));
    SumMonotone(Cacheds(a), Cacheds(b));
  }

  // --- What a range answers ---------------------------------------------------------------------

  /** The days that end with the one that holds `now`. */
  function LastDays(daily: map<int, Day>, now: int, dayCount: nat): map<int, Day> {
    map d | d in daily && now / 86_400_000 - dayCount < d <= now / 86_400_000 :: daily[d]
  }

  /**
    A range shows a model exactly when one of its days has prompt or completion tokens of it, and shows the sums over
    those days, cached tokens as no more than prompt tokens.
   */
  lemma RangeShows(daily: map<int, Day>, now: int, dayCount: nat, model: string)
    requires DailyOk(daily)
    ensures var rows, days := RangeAnswer(daily, now, dayCount), LastDays(daily, now, dayCount);
            && (model in rows <==>
                exists d :: d in days
                  && (TokensAt(days[d], model).prompt > 0.0 || TokensAt(days[d], model).completion > 0.0))
            && (model in rows ==>
                && rows[model].prompt == Min(Sum(PromptByDay(days, model)), 9_007_199_254_740_991.0)
                && rows[model].completion == Min(Sum(CompletionByDay(days, model)), 9_007_199_254_740_991.0)
                && rows[model].cached
                   == Min(rows[model].prompt, Min(Sum(CachedByDay(days, model)), 9_007_199_254_740_991.0)))
  {
    hide Answer, DailyOk;
    var days := LastDays(daily, now, dayCount);
    assert days == InRange(daily, WantedDays(now, dayCount));
    FewerDaysOk(daily, days);
    ShownIff(days, model);
    if model in Answer(days) { ShownAs(days, model); }
  }

  lemma FewerDaysOk(daily: map<int, Day>, days: map<int, Day>)
    requires DailyOk(daily) && SubDays(days, daily)
    ensures DailyOk(days)
  {
  }

  lemma ShownAs(days: map<int, Day>, model: string)
    requires model in Answer(days)
    ensures var row := Answer(days)[model];
            && row.prompt == Min(Sum(PromptByDay(days, model)), 9_007_199_254_740_991.0)
            && row.completion == Min(Sum(CompletionByDay(days, model)), 9_007_199_254_740_991.0)
            && row.cached == Min(row.prompt, Min(Sum(CachedByDay(days, model)), 9_007_199_254_740_991.0))
  {
    hide Sum, PromptByDay, CompletionByDay, CachedByDay;
  }

  lemma {:induction false} PositiveSum(table: map<int, real>)
    requires NonNegative(table)
    ensures Sum(table) > 0.0 <==> exists d :: d in table && table[d] > 0.0
  {
    SumNonNegative(table);
    if forall d :: d in table ==> table[d] <= 0.0 {
      SumSame(table, map[]);
    }
  }

  lemma ShownIff(days: map<int, Day>, model: string)
    requires DailyOk(days)
    ensures model in Answer(days) <==>
              exists d :: d in days
                && (TokensAt(days[d], model).prompt > 0.0 || TokensAt(days[d], model).completion > 0.0)
  {
    hide Sum;
    TablesNonNegative(days, model);
    var prompts, completions := PromptByDay(days, model), CompletionByDay(days, model);
    PositiveSum(prompts);
    PositiveSum(completions);
    hide Answer;
    if d :| d in days && (TokensAt(days[d], model).prompt > 0.0 || TokensAt(days[d], model).completion > 0.0) {
      assert d in prompts && d in completions && model in days[d];
      PositiveIsShown(days, model);
    }
    if model in Answer(days) {
      ShownIsPositive(days, model);
      var table := if Sum(prompts) > 0.0 then prompts else completions;
      var d :| d in table && table[d] > 0.0;
      assert d in days;
    }
  }

  lemma PositiveIsShown(days: map<int, Day>, model: string)
    requires Sum(PromptByDay(days, model)) > 0.0 || Sum(CompletionByDay(days, model)) > 0.0
    requires exists d :: d in days && model in days[d]
    ensures model in Answer(days)
  {
    hide Sum, PromptByDay, CompletionByDay, CachedByDay;
    assert model in ModelsOf(days);
  }

  lemma ShownIsPositive(days: map<int, Day>, model: string)
    requires model in Answer(days)
    ensures Sum(PromptByDay(days, model)) > 0.0 || Sum(CompletionByDay(days, model)) > 0.0
  {
    hide Sum, PromptByDay, CompletionByDay, CachedByDay;
  }

  /** A range that covers all days of a series answers with its lifetime completion tokens. */
  lemma WholeRangeIsLifetime(s: Series, now: int, dayCount: nat, model: string)
    requires SeriesOk(s) && ViewsAgree(s) && LastDays(s.daily, now, dayCount) == s.daily
    requires model in RangeAnswer(s.daily, now, dayCount)
    ensures var row, lifetime := RangeAnswer(s.daily, now, dayCount)[model], LifetimeAt(s.models, model);
            && row.completion == lifetime.completion && row.prompt >= lifetime.prompt
            && row.cached == lifetime.cached
  {
    hide RangeAnswer;
    RangeShows(s.daily, now, dayCount, model);
    assert Agrees(LifetimeAt(s.models, model), s.daily, model);
  }

  /** The totals of a range add up its rows, each figure up to the ceiling. */
  lemma TotalsAdd(rows: map<string, Row>, model: string, row: Row)
    requires model !in rows && 0.0 <= row.prompt && 0.0 <= row.completion && 0.0 <= row.cached
    requires forall m :: m in rows ==> 0.0 <= rows[m].prompt && 0.0 <= rows[m].completion && 0.0 <= rows[m].cached
    ensures Totals(map[]) == NO_TOKENS
    ensures Totals(rows[model := row]) == Row(AddTokens(Totals(rows).prompt, row.prompt),
                                              AddTokens(Totals(rows).completion, row.completion),
                                              AddTokens(Totals(rows).cached, row.cached))
  {
    assert Prompts(rows[model := row]) == Prompts(rows)[model := row.prompt];
    assert Completions(rows[model := row]) == Completions(rows)[model := row.completion];
    assert Cacheds(rows[model := row]) == Cacheds(rows)[model := row.cached];
    OneMoreEntry(Prompts(rows), model, row.prompt);
    OneMoreEntry(Completions(rows), model, row.completion);
    OneMoreEntry(Cacheds(rows), model, row.cached);
    NoRowsNoTotals();
  }

  lemma OneMoreEntry(table: map<string, real>, key: string, x: real)
    requires key !in table && 0.0 <= x && forall k :: k in table ==> 0.0 <= table[k]
    ensures Saturated(Sum(table[key := x])) == AddTokens(Saturated(Sum(table)), x)
  {
    SumUpdate(table, key, x);
    SumNonNegative(table);
  }

  lemma NoRowsNoTotals()
    ensures Totals(map[]) == NO_TOKENS
  {
    assert Prompts(map[]) == map[] && Completions(map[]) == map[] && Cacheds(map[]) == map[];
  }

  // --- Keeping only the newest days -------------------------------------------------------------

  /**
    Keeping the newest, adding one that is newest of all, and keeping the newest again is the same as keeping them
    once.
   */
  lemma NewestOfNewest(days: set<int>, d: int, n: nat)
    requires forall x :: x in days ==> x <= d
    ensures Newest(Newest(days, n) + {d}, n) == Newest(days + {d}, n)
  {
    var part := Newest(days, n);
    forall m | m in days + {d}
      ensures m in Newest(part + {d}, n) <==> m in Newest(days + {d}, n)
    {
      if m == d {
        assert Newer(part + {d}, m) == Newer(days + {d}, m) == {};
      } else {
        NewerInNewest(days, d, n, m);
      }
    }
  }

  lemma NewerInNewest(days: set<int>, d: int, n: nat, m: int)
    requires m in days && m != d && forall x :: x in days ==> x <= d
    ensures m in Newest(days, n) ==> Newer(Newest(days, n) + {d}, m) == Newer(days + {d}, m)
    ensures m in Newest(days + {d}, n) ==> m in Newest(days, n)
  {
    SubsetSize(Newer(days, m), Newer(days + {d}, m));
    forall x | x in Newer(days, m) ensures |Newer(days, x)| <= |Newer(days, m)| {
      SubsetSize(Newer(days, x), Newer(days, m));
    }
    if m in Newest(days, n) {
      forall x ensures x in Newer(Newest(days, n) + {d}, m) <==> x in Newer(days + {d}, m) {
      }
    }
  }

  /** Two tables that agree on their newest days, none later than `today`. */
  predicate SameNewest(kept: map<int, Day>, full: map<int, Day>, today: int) {
    && NewestDays(kept, MAX_DAILY_DAYS) == NewestDays(full, MAX_DAILY_DAYS)
    && (forall d :: d in kept ==> d <= today)
    && (forall d :: d in full ==> d <= today)
  }

  lemma TodayIsNewest(daily: map<int, Day>, today: int)
    requires today in daily && forall d :: d in daily ==> d <= today
    ensures today in NewestDays(daily, MAX_DAILY_DAYS) && NewestDays(daily, MAX_DAILY_DAYS)[today] == daily[today]
  {
    assert Newer(daily.Keys, today) == {};
  }

  lemma SameToday(kept: map<int, Day>, full: map<int, Day>, today: int)
    requires SameNewest(kept, full, today)
    ensures DayAt(kept, today) == DayAt(full, today)
  {
    if today in kept {
      TodayIsNewest(kept, today);
      assert today in NewestDays(full, MAX_DAILY_DAYS);
    }
    if today in full {
      TodayIsNewest(full, today);
      assert today in NewestDays(kept, MAX_DAILY_DAYS);
    }
  }

  lemma NewestDaysUpdated(daily: map<int, Day>, today: int, rows: Day)
    requires forall d :: d in daily ==> d <= today
    ensures NewestDays(daily[today := rows], MAX_DAILY_DAYS)
         == NewestDays(NewestDays(daily, MAX_DAILY_DAYS)[today := rows], MAX_DAILY_DAYS)
  {
    var newest := NewestDays(daily, MAX_DAILY_DAYS);
    assert newest.Keys == Newest(daily.Keys, MAX_DAILY_DAYS);
    assert daily[today := rows].Keys == daily.Keys + {today};
    assert newest[today := rows].Keys == newest.Keys + {today};
    NewestOfNewest(daily.Keys, today, MAX_DAILY_DAYS);
  }

  lemma CreditKeepsSameNewest(kept: map<int, Day>, full: map<int, Day>, c: Credit, now: int)
    requires SameNewest(kept, full, DayOf(now))
    ensures SameNewest(CreditDaily(kept, c, now), CreditDaily(full, c, now), DayOf(now))
  {
    hide NewestDays, CreditRow;
    SameToday(kept, full, DayOf(now));
    var day := DayAt(full, DayOf(now));
    var rows := day[c.model := CreditRow(TokensAt(day, c.model), c)];
    NewestDaysUpdated(kept, DayOf(now), rows);
    NewestDaysUpdated(full, DayOf(now), rows);
  }

  lemma NewestTwice(daily: map<int, Day>)
    ensures NewestDays(NewestDays(daily, MAX_DAILY_DAYS), MAX_DAILY_DAYS) == NewestDays(daily, MAX_DAILY_DAYS)
  {
    var newest := NewestDays(daily, MAX_DAILY_DAYS);
    forall d | d in newest ensures d in NewestDays(newest, MAX_DAILY_DAYS) {
      assert Newer(newest.Keys, d) <= Newer(daily.Keys, d);
      SubsetSize(Newer(newest.Keys, d), Newer(daily.Keys, d));
      assert d in Newest(newest.Keys, MAX_DAILY_DAYS);
    }
    assert NewestDays(newest, MAX_DAILY_DAYS).Keys == newest.Keys;
  }

  /** Both answer alike over any range of at most 35 days that ends today or later. */
  lemma SameAnswers(kept: map<int, Day>, full: map<int, Day>, today: int, now: int, dayCount: nat)
    requires SameNewest(kept, full, today) && today <= DayOf(now) && dayCount <= MAX_DAILY_DAYS
    ensures InRange(kept, WantedDays(now, dayCount)) == InRange(full, WantedDays(now, dayCount))
  {
    var wanted := WantedDays(now, dayCount);
    forall d | d in wanted
      ensures d in kept <==> d in full
      ensures d in kept ==> kept[d] == full[d]
    {
      RecentIsNewest(kept, now, dayCount, d);
      RecentIsNewest(full, now, dayCount, d);
    }
  }

  lemma RecentIsNewest(daily: map<int, Day>, now: int, dayCount: nat, d: int)
    requires (forall x :: x in daily ==> x <= DayOf(now)) && dayCount <= MAX_DAILY_DAYS
    requires d in WantedDays(now, dayCount)
    ensures d in daily <==> d in NewestDays(daily, MAX_DAILY_DAYS)
    ensures d in daily ==> NewestDays(daily, MAX_DAILY_DAYS)[d] == daily[d]
  {
    if d in daily {
      var wanted := WantedDays(now, dayCount);
      SubsetSize(Newer(daily.Keys, d), wanted - {d});
    }
  }

  // --- Runs -----------------------------------------------------------------------------------

  /** The same event in a process that never prunes anything. */
  function UnprunedNext(s: System, e: Event): System {
    match e
    case Record(batch, now) =>
      s.(memory := ObservedAll(s.memory, batch, now), dirty := s.dirty || ChangesAny(s.memory, batch, now),
         seeds := SeedsAfter(s.memory, s.seeds, batch, now))
    case Flush => if s.dirty then s.(dirty := false, saved := s.memory, savedSeeds := s.seeds) else s
    case Crash => s.(memory := SanitizeLedger(LedgerJson(s.saved)), dirty := false, seeds := s.savedSeeds)
  }

  function Unpruned(events: seq<Event>): System {
    if events == [] then START else UnprunedNext(Unpruned(events[..|events| - 1]), events[|events| - 1])
  }

  predicate ClockAscends(events: seq<Event>) {
    forall i, j :: 0 <= i <= j < |events| && events[i].Record? && events[j].Record? ==> events[i].now <= events[j].now
  }

  /** Nothing was recorded after that time. */
  predicate NoneAfter(events: seq<Event>, now: int) {
    forall i :: 0 <= i < |events| && events[i].Record? ==> events[i].now <= now
  }

  /** The two series differ at most in evicted models and in days beyond the newest 35. */
  predicate SeriesTwins(kept: Series, full: Series, today: int) {
    && kept.counters == full.counters
    && kept.lastModelId == full.lastModelId
    && SameNewest(kept.daily, full.daily, today)
  }

  predicate Twins(kept: Ledger, full: Ledger, today: int) {
    && kept.Keys == full.Keys
    && forall s :: s in kept ==> SeriesTwins(kept[s], full[s], today)
  }

  lemma ObservedTwins(kept: Series, full: Series, obs: Observation, now: int)
    requires SeriesTwins(kept, full, DayOf(now))
    ensures SeriesTwins(Observed(kept, obs, now), Observed(full, obs, now), DayOf(now))
    ensures Changes(kept, obs) == Changes(full, obs)
  {
    hide SameNewest, CreditDaily, CreditModels;
    assert CreditOf(kept, obs) == CreditOf(full, obs);
    if CreditOf(kept, obs).Some? {
      CreditKeepsSameNewest(kept.daily, full.daily, CreditOf(kept, obs).value, now);
    }
  }

  lemma {:induction false} ObservedAllTwins(kept: Ledger, full: Ledger, batch: seq<Observation>, now: int)
    requires Twins(kept, full, DayOf(now))
    ensures Twins(ObservedAll(kept, batch, now), ObservedAll(full, batch, now), DayOf(now))
    ensures ChangesAny(kept, batch, now) == ChangesAny(full, batch, now)
  {
    hide SeriesTwins, Observed, Changes;
    if batch != [] {
      var rest, obs := batch[..|batch| - 1], batch[|batch| - 1];
      ObservedAllTwins(kept, full, rest, now);
      var k, f := ObservedAll(kept, rest, now), ObservedAll(full, rest, now);
      NewSeriesTwins(DayOf(now));
      ObservedTwins(SeriesAt(k, obs.id), SeriesAt(f, obs.id), obs, now);
      var k', f' := Observed(SeriesAt(k, obs.id), obs, now), Observed(SeriesAt(f, obs.id), obs, now);
      assert k[obs.id := k'].Keys == k.Keys + {obs.id} && f[obs.id := f'].Keys == f.Keys + {obs.id};
    }
  }

  lemma NewSeriesTwins(today: int)
    ensures SeriesTwins(NEW_SERIES, NEW_SERIES, today)
  {
  }

  lemma PrunedTwins(before: Ledger, after: Ledger, full: Ledger, today: int)
    requires Twins(before, full, today) && Pruned(before, after) && |before| <= MAX_SERIES
    ensures Twins(after, full, today)
  {
    var kept: Ledger :| SeriesEvicted(before, kept, MAX_SERIES) && kept.Keys == after.Keys
                        && forall s :: s in after ==> SeriesPruned(kept[s], after[s]);
    NothingEvicted(before, kept);
    forall s | s in after ensures SeriesTwins(after[s], full[s], today) {
      assert SeriesPruned(kept[s], after[s]);
      NewestTwice(kept[s].daily);
    }
  }

  lemma NothingEvicted(before: Ledger, kept: Ledger)
    requires SeriesEvicted(before, kept, MAX_SERIES) && |before| <= MAX_SERIES
    ensures kept == before
  {
    assert |kept.Keys| == |kept| && |before.Keys| == |before|;
    SubsetSize(kept.Keys, before.Keys);
  }

  lemma TwinsLater(kept: Ledger, full: Ledger, today: int, later: int)
    requires Twins(kept, full, today) && today <= later
    ensures Twins(kept, full, later)
  {
    hide NewestDays;
    forall s | s in kept ensures SeriesTwins(kept[s], full[s], later) {
      assert SeriesTwins(kept[s], full[s], today);
    }
  }

  /** No call of `record` in the run met more series than the table may hold. */
  predicate NoSeriesEvicted(systems: seq<System>, events: seq<Event>)
    requires |systems| == |events| + 1
  {
    forall i :: 0 <= i < |events| && events[i].Record? ==>
      |ObservedAll(systems[i].memory, events[i].batch, events[i].now)| <= MAX_SERIES
  }

  /** Memory and file of both processes are twins. */
  predicate SystemTwins(kept: System, full: System, today: int) {
    kept.dirty == full.dirty && Twins(kept.memory, full.memory, today) && Twins(kept.saved, full.saved, today)
  }

  lemma RecordedTwins(s: System, e: Event, s': System, full: System, today: int)
    requires Next(s, e, s') && e.Record? && SystemTwins(s, full, DayOf(e.now)) && DayOf(e.now) <= today
    requires |ObservedAll(s.memory, e.batch, e.now)| <= MAX_SERIES
    ensures SystemTwins(s', UnprunedNext(full, e), today)
  {
    hide Twins, Pruned, ObservedAll, ChangesAny;
    ObservedAllTwins(s.memory, full.memory, e.batch, e.now);
    var observed := ObservedAll(full.memory, e.batch, e.now);
    if ChangesAny(s.memory, e.batch, e.now) {
      PrunedTwins(ObservedAll(s.memory, e.batch, e.now), s'.memory, observed, DayOf(e.now));
    }
    TwinsLater(s'.memory, observed, DayOf(e.now), today);
    TwinsLater(s.saved, full.saved, DayOf(e.now), today);
  }

  /** With whole counters the unpruned process, too, gets back what it saved. */
  lemma {:induction false} UnprunedIsWhole(events: seq<Event>)
    requires WholeEvents(events)
    ensures LedgerWhole(Unpruned(events).memory) && LedgerWhole(Unpruned(events).saved)
  {
    hide LedgerWhole, ObservedAll, ChangesAny, SanitizeLedger, LedgerJson;
    if events == [] {
      EmptyLedgerOk();
    } else {
      var before, e := events[..|events| - 1], events[|events| - 1];
      UnprunedIsWhole(before);
      LedgerReloads(Unpruned(before).saved);
      if e.Record? {
        assert WholeEvent(e);
        ObservedAllWhole(Unpruned(before).memory, e.batch, e.now);
      }
    }
  }

  lemma UnprunedRestores(events: seq<Event>, k: nat)
    requires WholeOrUninterrupted(events) && k < |events| && events[k].Crash?
    ensures var full := Unpruned(events[..k]); SanitizeLedger(LedgerJson(full.saved)) == full.saved
  {
    hide LedgerWhole, WholeEvent, SanitizeLedger, LedgerJson;
    UnprunedIsWhole(events[..k]);
    LedgerReloads(Unpruned(events[..k]).saved);
  }

  lemma {:induction false} RunTwins(systems: seq<System>, events: seq<Event>, k: nat, today: int)
    requires IsRun(systems, events) && WholeOrUninterrupted(events) && ClockAscends(events)
    requires NoSeriesEvicted(systems, events) && k <= |events|
    requires forall i :: 0 <= i < k && events[i].Record? ==> DayOf(events[i].now) <= today
    ensures SystemTwins(systems[k], Unpruned(events[..k]), today)
    decreases k
  {
    hide Twins, Recorded, ObservedAll, ChangesAny, SanitizeLedger, LedgerJson, WholeOrUninterrupted, DayOf;
    if k == 0 {
      NoTwins(today);
    } else {
      var e := events[k - 1];
      assert events[..k][..k - 1] == events[..k - 1];
      assert Next(systems[k - 1], e, systems[k]);
      if e.Record? {
        DaysAscend(events, k - 1);
        RunTwins(systems, events, k - 1, DayOf(e.now));
        RecordedTwins(systems[k - 1], e, systems[k], Unpruned(events[..k - 1]), today);
      } else {
        RunTwins(systems, events, k - 1, today);
        if e.Crash? {
          CrashRestores(systems, events, k - 1);
          UnprunedRestores(events, k - 1);
        }
      }
    }
  }

  lemma DaysAscend(events: seq<Event>, k: nat)
    requires ClockAscends(events) && k < |events| && events[k].Record?
    ensures forall i :: 0 <= i < k && events[i].Record? ==> DayOf(events[i].now) <= DayOf(events[k].now)
  {
  }

  lemma NoTwins(today: int)
    ensures Twins(map[], map[], today)
  {
  }

  /**
    On a clock that does not step back, as long as no series is evicted, every range query of up to 30 days is
    answered exactly as by a process that never drops a day, whatever flushes and, with whole counters, crashes
    there were. Both write at the same flushes.
   */
  lemma PruningIsInvisible(
      systems: seq<System>, events: seq<Event>, now: int, dayCount: nat, id: SeriesId)
    requires IsRun(systems, events) && WholeOrUninterrupted(events) && ClockAscends(events)
    requires NoSeriesEvicted(systems, events) && NoneAfter(events, now) && dayCount <= 30
    ensures var kept, full := systems[|events|], Unpruned(events);
            && kept.dirty == full.dirty
            && (id in kept.memory <==> id in full.memory)
            && (id in kept.memory ==>
                RangeAnswer(kept.memory[id].daily, now, dayCount) == RangeAnswer(full.memory[id].daily, now, dayCount))
  {
    hide SameNewest, Answer, WholeOrUninterrupted, ClockAscends, NoSeriesEvicted;
    RunTwins(systems, events, |events|, DayOf(now));
    assert events[..|events|] == events;
    var kept, full := systems[|events|].memory, Unpruned(events).memory;
    if id in kept {
      assert SeriesTwins(kept[id], full[id], DayOf(now));
      SameAnswers(kept[id].daily, full[id].daily, DayOf(now), now, dayCount);
    }
  }
}
