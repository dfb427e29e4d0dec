/**
  The two views that the ledger keeps of every model: its lifetime row and its rows per UTC day
  (server/llmtokens/LlmTokenLedger.js:298-326). They absorb cached tokens separately, and still fit.
 */
module LedgerDays {
  import opened FiniteSums
  import opened LedgerState
  import opened RealArithmetic

  function CompletionByDay(daily: map<int, Day>, model: string): map<int, real> {
    map d | d in daily :: TokensAt(daily[d], model).completion
  }

  function CachedByDay(daily: map<int, Day>, model: string): map<int, real> {
    map d | d in daily :: TokensAt(daily[d], model).cached
  }

  function PromptByDay(daily: map<int, Day>, model: string): map<int, real> {
    map d | d in daily :: TokensAt(daily[d], model).prompt
  }

  /**
    Completion and cached tokens of the days sum to the lifetime figures, up to the ceiling; prompt tokens to at least
    that.
   */
  ghost predicate Agrees(row: Row, daily: map<int, Day>, model: string) {
    && row.completion == Min(Sum(CompletionByDay(daily, model)), MAX_TOKENS)
    && row.cached == Min(Sum(CachedByDay(daily, model)), MAX_TOKENS)
    && row.prompt <= Sum(PromptByDay(daily, model))
  }

  ghost predicate ViewsAgree(s: Series) {
    forall model :: Agrees(LifetimeAt(s.models, model), s.daily, model)
  }

  predicate DailyOk(daily: map<int, Day>) {
    forall d :: d in daily ==> DayOk(daily[d])
  }

  // --- Sums of days ---------------------------------------------------------------------------

  lemma DayShare(table: map<int, real>, day: int)
    requires NonNegative(table)
    ensures 0.0 <= At(table, day) <= Sum(table)
  {
    SumNonNegative(table);
  }

  /** One day's figure replaced. */
  lemma ByDayUpdated(daily: map<int, Day>, day: int, rows: Day, model: string)
    ensures Sum(CompletionByDay(daily[day := rows], model))
         == Sum(CompletionByDay(daily, model)) - TokensAt(DayAt(daily, day), model).completion
            + TokensAt(rows, model).completion
    ensures Sum(CachedByDay(daily[day := rows], model))
         == Sum(CachedByDay(daily, model)) - TokensAt(DayAt(daily, day), model).cached + TokensAt(rows, model).cached
    ensures Sum(PromptByDay(daily[day := rows], model))
         == Sum(PromptByDay(daily, model)) - TokensAt(DayAt(daily, day), model).prompt + TokensAt(rows, model).prompt
  {
    var after, row := daily[day := rows], TokensAt(rows, model);
    assert CompletionByDay(after, model) == CompletionByDay(daily, model)[day := row.completion];
    SumUpdate(CompletionByDay(daily, model), day, row.completion);
    assert CachedByDay(after, model) == CachedByDay(daily, model)[day := row.cached];
    SumUpdate(CachedByDay(daily, model), day, row.cached);
    assert PromptByDay(after, model) == PromptByDay(daily, model)[day := row.prompt];
    SumUpdate(PromptByDay(daily, model), day, row.prompt);
  }

  lemma TablesNonNegative(daily: map<int, Day>, model: string)
    requires DailyOk(daily)
    ensures NonNegative(CompletionByDay(daily, model)) && NonNegative(CachedByDay(daily, model))
    ensures NonNegative(PromptByDay(daily, model))
  {
    forall d | d in daily ensures RowOk(TokensAt(daily[d], model)) {
    }
  }

  lemma DayShares(daily: map<int, Day>, day: int, model: string)
    requires DailyOk(daily)
    ensures 0.0 <= TokensAt(DayAt(daily, day), model).completion <= Sum(CompletionByDay(daily, model))
    ensures 0.0 <= TokensAt(DayAt(daily, day), model).cached <= Sum(CachedByDay(daily, model))
    ensures 0.0 <= TokensAt(DayAt(daily, day), model).prompt <= Sum(PromptByDay(daily, model))
  {
    TablesNonNegative(daily, model);
    DayShare(CompletionByDay(daily, model), day);
    DayShare(CachedByDay(daily, model), day);
    DayShare(PromptByDay(daily, model), day);
  }

  lemma CachedWithinPrompt(daily: map<int, Day>, model: string)
    requires DailyOk(daily)
    ensures Sum(CachedByDay(daily, model)) <= Sum(PromptByDay(daily, model))
  {
    TablesNonNegative(daily, model);
    forall d | d in daily ensures RowOk(TokensAt(daily[d], model)) {
    }
    SumMonotone(CachedByDay(daily, model), PromptByDay(daily, model));
  }

  // --- One credit -----------------------------------------------------------------------------

  /** A total that is the saturated sum of shares stays so when it and one share get the same amount. */
  lemma SaturatedSumGrows(total: real, sum: real, share: real, amount: real)
    requires total == Min(sum, MAX_TOKENS) && 0.0 <= share <= sum && share <= MAX_TOKENS && amount >= 0.0
    ensures Plus(total, amount) == Min(sum - share + Plus(share, amount), MAX_TOKENS)
  {
  }

  lemma SumStaysAbove(total: real, sum: real, share: real, amount: real)
    requires total <= sum && total <= MAX_TOKENS && 0.0 <= share <= sum && share <= MAX_TOKENS && amount >= 0.0
    ensures Plus(total, amount) <= sum - share + Plus(share, amount)
  {
  }

  lemma AbsorbedPrompt(row: Row, c: Credit)
    requires RowOk(row) && 0.0 <= c.output && 0.0 <= c.prompt && 0.0 <= c.cached
    ensures var after, prompt := CreditRow(row, c), Plus(row.prompt, c.prompt);
            && after.cached == Plus(row.cached, c.cached)
            && after.completion == Plus(row.completion, c.output)
            && after.prompt == if after.cached > prompt then after.cached else prompt
  {
  }

  /** The credited model: its row and its row of the day grow by the same credit. */
  lemma CreditKeepsAgreement(row: Row, daily: map<int, Day>, c: Credit, now: int)
    requires RowOk(row) && DailyOk(daily) && Agrees(row, daily, c.model)
    requires 0.0 <= c.output && 0.0 <= c.prompt && 0.0 <= c.cached
    ensures Agrees(CreditRow(row, c), CreditDaily(daily, c, now), c.model)
  {
    hide CompletionByDay, CachedByDay, PromptByDay, CreditRow;
    var today, model := DayOf(now), c.model;
    var dayRow := TokensAt(DayAt(daily, today), model);
    var rows := DayAt(daily, today)[model := CreditRow(dayRow, c)];
    ByDayUpdated(daily, today, rows, model);
    DayShares(daily, today, model);
    DayRowOk(daily, today, model);
    AbsorbedPrompt(row, c);
    AbsorbedPrompt(dayRow, c);
    SaturatedSumGrows(row.completion, Sum(CompletionByDay(daily, model)), dayRow.completion, c.output);
    SaturatedSumGrows(row.cached, Sum(CachedByDay(daily, model)), dayRow.cached, c.cached);
    SumStaysAbove(row.prompt, Sum(PromptByDay(daily, model)), dayRow.prompt, c.prompt);
    CreditedDailyOk(daily, c, now);
    CachedWithinPrompt(CreditDaily(daily, c, now), model);
  }

  lemma DayRowOk(daily: map<int, Day>, day: int, model: string)
    requires DailyOk(daily)
    ensures RowOk(TokensAt(DayAt(daily, day), model))
  {
  }

  lemma CreditedDailyOk(daily: map<int, Day>, c: Credit, now: int)
    requires DailyOk(daily) && 0.0 <= c.output && 0.0 <= c.prompt && 0.0 <= c.cached
    ensures DailyOk(CreditDaily(daily, c, now))
  {
    var day := DayAt(daily, DayOf(now));
    CreditKeepsRow(TokensAt(day, c.model), c);
    assert DayOk(day[c.model := CreditRow(TokensAt(day, c.model), c)]);
  }

  /** Any other model's figures stay as they were. */
  lemma OthersKeepAgreement(row: Row, daily: map<int, Day>, c: Credit, now: int, model: string)
    requires model != c.model && Agrees(row, daily, model)
    ensures Agrees(row, CreditDaily(daily, c, now), model)
  {
    hide CompletionByDay, CachedByDay, PromptByDay, CreditRow;
    var day := DayAt(daily, DayOf(now));
    ByDayUpdated(daily, DayOf(now), day[c.model := CreditRow(TokensAt(day, c.model), c)], model);
  }

  /** An observation keeps both views of every model of its series in agreement. */
  lemma ObservedKeepsAgreement(s: Series, obs: Observation, now: int)
    requires SeriesOk(s) && ViewsAgree(s)
    ensures ViewsAgree(Observed(s, obs, now))
  {
    hide Agrees, CreditRow;
    if CreditOf(s, obs).Some? {
      var c := CreditOf(s, obs).value;
      forall model
        ensures Agrees(LifetimeAt(CreditModels(s.models, c, now), model), CreditDaily(s.daily, c, now), model)
      {
        if model == c.model {
          assert RowOk(LifetimeAt(s.models, model));
          CreditKeepsAgreement(LifetimeAt(s.models, model), s.daily, c, now);
        } else {
          OthersKeepAgreement(LifetimeAt(s.models, model), s.daily, c, now, model);
        }
      }
    }
  }

  lemma NewSeriesAgrees()
    ensures ViewsAgree(NEW_SERIES)
  {
    forall model ensures Agrees(LifetimeAt(NEW_SERIES.models, model), NEW_SERIES.daily, model) {
      SumNonNegative(CompletionByDay(map[], model));
    }
  }
}
