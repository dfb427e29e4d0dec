/**
  The token ledger of server/llmtokens/LlmTokenLedger.js as a value: what one observation credits,
  to a model's lifetime row and to its row of the current day.
 */
module LedgerState {
  import opened Options
  import opened FiniteSets

  /** MAX_SAFE_TOKENS: totals saturate here (src/shared/tokenFormat.js:8-23). */
  const MAX_TOKENS := 9_007_199_254_740_991.0
  const MAX_CREDITABLE_DELTA := 1_000_000_000.0
  const UNKNOWN_MODEL := "unknown"
  const DAY_MS := 86_400_000
  const MAX_DAILY_DAYS := 35
  const MAX_SERIES := 200
  const MAX_MODELS_PER_SERIES := 100

  datatype Row = Row(prompt: real, completion: real, cached: real)

  datatype ModelRow = ModelRow(tokens: Row, lastSeenAt: int)

  datatype Counters = Counters(output: Option<real>, prompt: Option<real>, cached: Option<real>)

  /** Rows of one UTC day, by model; days are counted from the epoch. */
  type Day = map<string, Row>

  datatype Series = Series(
    updatedAt: int,
    lastModelId: Option<string>,
    counters: Counters,
    models: map<string, ModelRow>,
    daily: map<int, Day>)

  datatype SeriesId = SeriesId(sparkId: string, port: int)

  type Ledger = map<SeriesId, Series>

  datatype Observation = Observation(id: SeriesId, modelId: Option<string>, output: real, prompt: Option<real>,
                                     cached: Option<real>)

  const NO_TOKENS := Row(0.0, 0.0, 0.0)

  const NEW_SERIES := Series(0, None, Counters(None, None, None), map[], map[])

  function SeriesAt(ledger: Ledger, id: SeriesId): Series {
    if id in ledger then ledger[id] else NEW_SERIES
  }

  function DayOf(now: int): int {
    now / DAY_MS
  }

  function DayAt(daily: map<int, Day>, day: int): Day {
    if day in daily then daily[day] else map[]
  }

  function TokensAt(day: Day, model: string): Row {
    if model in day then day[model] else NO_TOKENS
  }

  function LifetimeAt(models: map<string, ModelRow>, model: string): Row {
    if model in models then models[model].tokens else NO_TOKENS
  }

  /** The saturating sum of src/shared/tokenFormat.js. */
  function AddTokens(a: real, b: real): (sum: real)
    ensures sum <= MAX_TOKENS
    ensures a + b <= MAX_TOKENS ==> sum == a + b
    ensures a + b > MAX_TOKENS ==> sum == MAX_TOKENS
    ensures a <= MAX_TOKENS && b >= 0.0 ==> a <= sum
  {
    if a + b > MAX_TOKENS then MAX_TOKENS else a + b
  }

  // --- One observation ------------------------------------------------------------------------

  /** What an observation adds to the rows of a model; amounts that are not credited are zero. */
  datatype Credit = Credit(model: string, output: real, prompt: real, cached: real)

  /** Growth of an optional counter; zero if a reading is missing, went back or jumped too far. */
  function Growth(reading: Option<real>, base: Option<real>): (d: real)
    ensures 0.0 <= d <= MAX_CREDITABLE_DELTA
  {
    if reading.Some? && base.Some? && 0.0 < reading.value - base.value <= MAX_CREDITABLE_DELTA
    then reading.value - base.value else 0.0
  }

  function ModelFor(s: Series, obs: Observation): string {
    if obs.modelId.Some? then obs.modelId.value else if s.lastModelId.Some? then s.lastModelId.value else UNKNOWN_MODEL
  }

  function LastModelAfter(s: Series, obs: Observation): Option<string> {
    if obs.modelId.Some? && obs.modelId.value != "" then obs.modelId else s.lastModelId
  }

  /** The output counter starts, went back, or jumped too far: only the baseline is taken. */
  predicate Reseeds(s: Series, obs: Observation) {
    || s.counters.output.None?
    || obs.output - s.counters.output.value < 0.0
    || obs.output - s.counters.output.value > MAX_CREDITABLE_DELTA
  }

  function CreditOf(s: Series, obs: Observation): (credit: Option<Credit>)
    ensures credit.Some? ==> 0.0 <= credit.value.output && 0.0 <= credit.value.prompt && 0.0 <= credit.value.cached
  {
    if Reseeds(s, obs) then None
    else
      var output, prompt := obs.output - s.counters.output.value, Growth(obs.prompt, s.counters.prompt);
      if output > 0.0 || prompt > 0.0
      then Some(Credit(ModelFor(s, obs), output, prompt, Growth(obs.cached, s.counters.cached)))
      else None
  }

  /** `a` plus a credited amount; the source leaves the field alone when the amount is zero. */
  function Plus(a: real, amount: real): real {
    if amount > 0.0 then AddTokens(a, amount) else a
  }

  /** A row after a credit; cached tokens beyond the prompt tokens are absorbed into the prompt tokens. */
  function CreditRow(row: Row, c: Credit): Row {
    var prompt, cached := Plus(row.prompt, c.prompt), Plus(row.cached, c.cached);
    Row(if cached > prompt then AddTokens(prompt, cached - prompt) else prompt, Plus(row.completion, c.output), cached)
  }

  function CreditModels(models: map<string, ModelRow>, c: Credit, now: int): map<string, ModelRow> {
    models[c.model := ModelRow(CreditRow(LifetimeAt(models, c.model), c), now)]
  }

  function CreditDaily(daily: map<int, Day>, c: Credit, now: int): map<int, Day> {
    var day := DayAt(daily, DayOf(now));
    daily[DayOf(now) := day[c.model := CreditRow(TokensAt(day, c.model), c)]]
  }

  /** A series after one observation. */
  function Observed(s: Series, obs: Observation, now: int): Series {
    var seeded :=
      s.(updatedAt := now, lastModelId := LastModelAfter(s, obs),
         counters := Counters(Some(obs.output), obs.prompt, obs.cached));
    match CreditOf(s, obs)
    case None => seeded
    case Some(c) => seeded.(models := CreditModels(s.models, c, now), daily := CreditDaily(s.daily, c, now))
  }

  /** Whether an observation makes the ledger worth saving. */
  predicate Changes(s: Series, obs: Observation) {
    Reseeds(s, obs) || CreditOf(s, obs).Some?
  }

  // --- A batch --------------------------------------------------------------------------------

  function ObservedAll(ledger: Ledger, batch: seq<Observation>, now: int): Ledger {
    if batch == [] then ledger
    else
      var before, obs := ObservedAll(ledger, batch[..|batch| - 1], now), batch[|batch| - 1];
      before[obs.id := Observed(SeriesAt(before, obs.id), obs, now)]
  }

  predicate ChangesAny(ledger: Ledger, batch: seq<Observation>, now: int) {
    batch != [] &&
    var rest, obs := batch[..|batch| - 1], batch[|batch| - 1];
    ChangesAny(ledger, rest, now) || Changes(SeriesAt(ObservedAll(ledger, rest, now), obs.id), obs)
  }

  // --- Pruning --------------------------------------------------------------------------------

  function NewestDays(daily: map<int, Day>, maximum: nat): map<int, Day> {
    map d | d in daily && d in Newest(daily.Keys, maximum) :: daily[d]
  }

  /** `after` is what is left of a table of rows when the least recently seen beyond the maximum are dropped. */
  ghost predicate ModelsEvicted(before: map<string, ModelRow>, after: map<string, ModelRow>, maximum: nat) {
    && after.Keys <= before.Keys
    && (forall m :: m in after ==> after[m] == before[m])
    && |after| == (if |before| > maximum then maximum else |before|)
    && forall m, n :: m in before && m !in after && n in after ==> before[m].lastSeenAt <= before[n].lastSeenAt
  }

  ghost predicate SeriesEvicted(before: Ledger, after: Ledger, maximum: nat) {
    && after.Keys <= before.Keys
    && (forall s :: s in after ==> after[s] == before[s])
    && |after| == (if |before| > maximum then maximum else |before|)
    && forall s, t :: s in before && s !in after && t in after ==> before[s].updatedAt <= before[t].updatedAt
  }

  ghost predicate SeriesPruned(before: Series, after: Series) {
    && after == before.(models := after.models, daily := NewestDays(before.daily, MAX_DAILY_DAYS))
    && ModelsEvicted(before.models, after.models, MAX_MODELS_PER_SERIES)
  }

  /** What one pruning may leave: which of several equally old rows goes first is left open. */
  ghost predicate Pruned(before: Ledger, after: Ledger) {
    exists kept: Ledger ::
      && SeriesEvicted(before, kept, MAX_SERIES)
      && kept.Keys == after.Keys
      && forall s :: s in after ==> SeriesPruned(kept[s], after[s])
  }

  /** One call of `record`: it prunes only if something changed that is worth saving. */
  ghost predicate Recorded(before: Ledger, batch: seq<Observation>, now: int, after: Ledger) {
    if ChangesAny(before, batch, now) then Pruned(ObservedAll(before, batch, now), after)
    else after == ObservedAll(before, batch, now)
  }

  lemma {:induction false} RecordedKeepsOk(before: Ledger, batch: seq<Observation>, now: int, after: Ledger)
    requires LedgerOk(before) && Recorded(before, batch, now, after)
    ensures LedgerOk(after)
  {
    hide LedgerOk, Pruned;
    ObservedAllKeepsOk(before, batch, now);
    if ChangesAny(before, batch, now) {
      PrunedKeepsOk(ObservedAll(before, batch, now), after);
    }
  }

  // --- Well-formed rows -----------------------------------------------------------------------

  predicate RowOk(row: Row) {
    0.0 <= row.cached <= row.prompt <= MAX_TOKENS && 0.0 <= row.completion <= MAX_TOKENS
  }

  predicate DayOk(day: Day) {
    forall m :: m in day ==> RowOk(day[m])
  }

  predicate SeriesOk(s: Series) {
    && (forall m :: m in s.models ==> RowOk(s.models[m].tokens))
    && (forall d :: d in s.daily ==> DayOk(s.daily[d]))
  }

  predicate LedgerOk(ledger: Ledger) {
    forall s :: s in ledger ==> SeriesOk(ledger[s])
  }

  predicate CountOk(n: Option<real>) {
    n.Some? ==> 0.0 <= n.value
  }

  /** Counters come in as finite, non-negative numbers. */
  predicate ObservationOk(obs: Observation) {
    0.0 <= obs.output && CountOk(obs.prompt) && CountOk(obs.cached)
  }

  /** A credit keeps cached tokens within prompt tokens, and never lets a figure shrink or pass the ceiling. */
  lemma CreditKeepsRow(row: Row, c: Credit)
    requires RowOk(row) && 0.0 <= c.output && 0.0 <= c.prompt && 0.0 <= c.cached
    ensures var after := CreditRow(row, c);
            && RowOk(after)
            && row.prompt <= after.prompt && row.completion <= after.completion && row.cached <= after.cached
  {
  }

  lemma ObservedKeepsOk(s: Series, obs: Observation, now: int)
    requires SeriesOk(s)
    ensures SeriesOk(Observed(s, obs, now))
  {
    if CreditOf(s, obs).Some? {
      var c := CreditOf(s, obs).value;
      CreditKeepsRow(LifetimeAt(s.models, c.model), c);
      var day := DayAt(s.daily, DayOf(now));
      CreditKeepsRow(TokensAt(day, c.model), c);
      assert DayOk(day[c.model := CreditRow(TokensAt(day, c.model), c)]);
    }
  }

  lemma {:induction false} ObservedAllKeepsOk(ledger: Ledger, batch: seq<Observation>, now: int)
    requires LedgerOk(ledger)
    ensures LedgerOk(ObservedAll(ledger, batch, now))
  {
    hide SeriesOk, Observed;
    if batch != [] {
      var rest, obs := batch[..|batch| - 1], batch[|batch| - 1];
      ObservedAllKeepsOk(ledger, rest, now);
      NewSeriesOk();
      ObservedKeepsOk(SeriesAt(ObservedAll(ledger, rest, now), obs.id), obs, now);
    }
  }

  lemma NewSeriesOk()
    ensures SeriesOk(NEW_SERIES)
  {
  }

  lemma PrunedKeepsOk(before: Ledger, after: Ledger)
    requires Pruned(before, after) && LedgerOk(before)
    ensures LedgerOk(after)
  {
    var kept: Ledger :| SeriesEvicted(before, kept, MAX_SERIES) && kept.Keys == after.Keys
                        && forall s :: s in after ==> SeriesPruned(kept[s], after[s]);
    forall s | s in after ensures SeriesOk(after[s]) {
      assert SeriesPruned(kept[s], after[s]) && kept[s] == before[s];
    }
  }

  /** A decrease of the output counter, or a jump beyond the credible, credits nothing and takes the new baseline. */
  lemma DecreaseOnlyReseeds(s: Series, obs: Observation, now: int)
    requires s.counters.output.Some?
    ensures var base := s.counters.output.value;
            var after := Observed(s, obs, now);
            && (obs.output < base || obs.output > base + MAX_CREDITABLE_DELTA ==>
                  after.models == s.models && after.daily == s.daily && after.counters.output == Some(obs.output)
                    && Changes(s, obs))
            && (base < obs.output <= base + MAX_CREDITABLE_DELTA ==>
                CreditOf(s, obs).Some? && CreditOf(s, obs).value.output == obs.output - base)
  {
  }
}
