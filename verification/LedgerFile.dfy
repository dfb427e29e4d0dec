/**
  The ledger's file: what JSON gives back, how `_sanitize` coerces it, and what survives a
  flush and a load (server/llmtokens/LlmTokenLedger.js:131-213).
 */
module LedgerFile {
  import opened Options
  import opened LedgerState
  import opened RealArithmetic

  /** A field of the parsed file: missing or not a number at all, null, or a number. */
  datatype Json = Absent | Null | Number(value: real)

  datatype RawRow = RawRow(prompt: Json, completion: Json, cached: Json)

  datatype RawModelRow = RawModelRow(tokens: RawRow, lastSeenAt: Option<int>)

  datatype RawSeries = RawSeries(
    updatedAt: Option<int>,
    lastModelId: Option<string>,
    output: Json,
    prompt: Json,
    cached: Json,
    models: map<string, RawModelRow>,
    daily: map<int, map<string, RawRow>>)

  type RawLedger = map<SeriesId, RawSeries>

  // --- Coercion -------------------------------------------------------------------------------

  /** Nearest whole number, halves upwards. */
  function Round(x: real): real {
    (x + 0.5).Floor as real
  }

  predicate Whole(x: real) {
    x == x.Floor as real
  }

  function AsCount(j: Json): (n: real)
    ensures 0.0 <= n && Whole(n)
  {
    if j.Number? && Round(j.value) > 0.0 then Round(j.value) else 0.0
  }

  /** A finite, non-negative number; null counts as zero, as `Number(null)` does. */
  function FiniteCount(j: Json): Option<real> {
    match j
    case Absent => None
    case Null => Some(0.0)
    case Number(n) => if n >= 0.0 then Some(n) else None
  }

  /** The prompt and cached counters are only converted when they are not null. */
  function OptionalCount(j: Json): Option<real> {
    if j.Null? then None else FiniteCount(j)
  }

  function TimeOr0(t: Option<int>): int {
    if t.Some? then t.value else 0
  }

  function SanitizeRow(raw: RawRow): Row {
    var prompt, cached := AsCount(raw.prompt), AsCount(raw.cached);
    Row(prompt, AsCount(raw.completion), if cached < prompt then cached else prompt)
  }

  function SanitizeModels(raw: map<string, RawModelRow>): map<string, ModelRow> {
    map m | m in raw :: ModelRow(SanitizeRow(raw[m].tokens), TimeOr0(raw[m].lastSeenAt))
  }

  function SanitizeDay(raw: map<string, RawRow>): Day {
    map m | m in raw :: SanitizeRow(raw[m])
  }

  function SanitizeDaily(raw: map<int, map<string, RawRow>>): map<int, Day> {
    map d | d in raw :: SanitizeDay(raw[d])
  }

  function SanitizeSeries(raw: RawSeries): Series {
    Series(TimeOr0(raw.updatedAt), raw.lastModelId,
           Counters(FiniteCount(raw.output), OptionalCount(raw.prompt), OptionalCount(raw.cached)),
           SanitizeModels(raw.models), SanitizeDaily(raw.daily))
  }

  function SanitizeLedger(raw: RawLedger): Ledger {
    map s | s in raw :: SanitizeSeries(raw[s])
  }

  // --- Writing --------------------------------------------------------------------------------

  function ToJson(n: Option<real>): Json {
    if n.Some? then Number(n.value) else Null
  }

  function RowJson(row: Row): RawRow {
    RawRow(Number(row.prompt), Number(row.completion), Number(row.cached))
  }

  function DayJson(day: Day): map<string, RawRow> {
    map m | m in day :: RowJson(day[m])
  }

  function ModelsJson(models: map<string, ModelRow>): map<string, RawModelRow> {
    map m | m in models :: RawModelRow(RowJson(models[m].tokens), Some(models[m].lastSeenAt))
  }

  function DailyJson(daily: map<int, Day>): map<int, map<string, RawRow>> {
    map d | d in daily :: DayJson(daily[d])
  }

  function SeriesJson(s: Series): RawSeries {
    RawSeries(Some(s.updatedAt), s.lastModelId, ToJson(s.counters.output), ToJson(s.counters.prompt),
              ToJson(s.counters.cached),
              ModelsJson(s.models), DailyJson(s.daily))
  }

  function LedgerJson(ledger: Ledger): RawLedger {
    map s | s in ledger :: SeriesJson(ledger[s])
  }

  /** A series as it comes back after a flush and a load. */
  function Reloaded(s: Series): Series {
    SanitizeSeries(SeriesJson(s))
  }

  // --- What comes back unchanged --------------------------------------------------------------

  predicate RowKept(row: Row) {
    && Whole(row.prompt) && Whole(row.completion) && Whole(row.cached)
    && 0.0 <= row.completion && 0.0 <= row.cached <= row.prompt
  }

  predicate RowsKept(s: Series) {
    && (forall m :: m in s.models ==> RowKept(s.models[m].tokens))
    && (forall d, m :: d in s.daily && m in s.daily[d] ==> RowKept(s.daily[d][m]))
  }

  predicate CountersKept(c: Counters) {
    c.output.Some? && CountOk(c.output) && CountOk(c.prompt) && CountOk(c.cached)
  }

  lemma RowKeptIff(row: Row)
    ensures SanitizeRow(RowJson(row)) == row <==> RowKept(row)
  {
    RoundKeeps(row.prompt);
    RoundKeeps(row.completion);
    RoundKeeps(row.cached);
  }

  lemma RoundKeeps(x: real)
    ensures AsCount(Number(x)) == x <==> Whole(x) && 0.0 <= x
    ensures Whole(x) ==> Round(x) == x
  {
    if Whole(x) {
      assert x <= x + 0.5 < x + 1.0;
      assert (x + 0.5).Floor == x.Floor;
    }
  }

  lemma DailyKeptIff(s: Series)
    ensures SanitizeDaily(DailyJson(s.daily)) == s.daily <==>
              forall d, m :: d in s.daily && m in s.daily[d] ==> RowKept(s.daily[d][m])
  {
    hide SanitizeRow, RowJson, RowKept;
    var back := SanitizeDaily(DailyJson(s.daily));
    assert back.Keys == s.daily.Keys;
    forall d, m | d in s.daily && m in s.daily[d]
      ensures m in back[d] && (back[d][m] == s.daily[d][m] <==> RowKept(s.daily[d][m]))
    {
      RowKeptIff(s.daily[d][m]);
    }
    if forall d, m :: d in s.daily && m in s.daily[d] ==> RowKept(s.daily[d][m]) {
      forall d | d in s.daily ensures back[d] == s.daily[d] {
        assert back[d].Keys == s.daily[d].Keys;
      }
    }
  }

  lemma ModelsKeptIff(s: Series)
    ensures SanitizeModels(ModelsJson(s.models)) == s.models <==>
              forall m :: m in s.models ==> RowKept(s.models[m].tokens)
  {
    hide SanitizeRow, RowJson, RowKept;
    var back := SanitizeModels(ModelsJson(s.models));
    assert back.Keys == s.models.Keys;
    forall m | m in s.models ensures back[m] == s.models[m] <==> RowKept(s.models[m].tokens) {
      RowKeptIff(s.models[m].tokens);
    }
  }

  /**
    A series comes back unchanged from the file exactly when all its figures are whole, cached tokens are
    within prompt tokens, no counter is negative, and the output counter is known.
   */
  lemma ReloadIsIdentityIff(s: Series)
    ensures Reloaded(s) == s <==> RowsKept(s) && CountersKept(s.counters)
  {
    hide SanitizeRow, RowJson, RowKept, SanitizeModels, SanitizeDaily, ModelsJson, DailyJson;
    ModelsKeptIff(s);
    DailyKeptIff(s);
  }

  /** What `_sanitize` makes of any file: whole figures, cached tokens within prompt tokens, no negative counter. */
  lemma SanitizeGivesKeptRows(raw: RawSeries)
    ensures var s := SanitizeSeries(raw);
            RowsKept(s) && CountOk(s.counters.output) && CountOk(s.counters.prompt) && CountOk(s.counters.cached)
  {
    hide AsCount;
    forall row: RawRow ensures RowKept(SanitizeRow(row)) {
      SanitizedRowKept(row);
    }
  }

  lemma SanitizedRowKept(raw: RawRow)
    ensures RowKept(SanitizeRow(raw))
  {
    hide Whole;
  }

  /** The nearest whole number at or above zero; what is missing counts as nothing. */
  predicate IsNearest(j: Json, n: real) {
    match j
    case Number(x) => Whole(n) && 0.0 <= n && (x >= 0.0 ==> -0.5 < n - x <= 0.5) && (x < 0.0 ==> n == 0.0)
    case _ => n == 0.0
  }

  /** Every figure of a row is read as the nearest count, and cached tokens as no more than prompt tokens. */
  lemma CoercedRow(raw: RawRow)
    ensures var row := SanitizeRow(raw);
            && IsNearest(raw.prompt, row.prompt) && IsNearest(raw.completion, row.completion)
            && exists cached :: IsNearest(raw.cached, cached) && row.cached == Min(cached, row.prompt)
  {
    hide AsCount;
    CountIsNearest(raw.prompt);
    CountIsNearest(raw.completion);
    CountIsNearest(raw.cached);
  }

  /** Series, models and days of the file all stay; missing times count as zero, and rows are coerced one by one. */
  lemma CoercedSeries(raw: RawSeries)
    ensures var s := SanitizeSeries(raw);
            && s.updatedAt == (if raw.updatedAt.Some? then raw.updatedAt.value else 0)
            && s.lastModelId == raw.lastModelId
            && s.models.Keys == raw.models.Keys && s.daily.Keys == raw.daily.Keys
            && (forall m :: m in raw.models ==>
                  s.models[m] == ModelRow(SanitizeRow(raw.models[m].tokens),
                                          if raw.models[m].lastSeenAt.Some? then raw.models[m].lastSeenAt.value else 0))
            && (forall d :: d in raw.daily ==>
                  && s.daily[d].Keys == raw.daily[d].Keys
                  && forall m :: m in raw.daily[d] ==> s.daily[d][m] == SanitizeRow(raw.daily[d][m]))
  {
    hide SanitizeRow;
  }

  lemma CountIsNearest(j: Json)
    ensures IsNearest(j, AsCount(j))
  {
    if j.Number? {
      var x := j.value + 0.5;
      assert x.Floor as real <= x < x.Floor as real + 1.0;
      if Round(j.value) > 0.0 { assert x.Floor as real >= 1.0; } else { assert x < 1.0; }
    }
  }

  /**
    `_sanitize` is idempotent exactly on series with a usable output counter. An unusable one becomes null,
    is written as null, and the next load reads null as zero.
   */
  lemma SanitizeIdempotentIff(raw: RawSeries)
    ensures Reloaded(SanitizeSeries(raw)) == SanitizeSeries(raw) <==>
              raw.output.Null? || (raw.output.Number? && raw.output.value >= 0.0)
  {
    hide SanitizeModels, SanitizeDaily, RowsKept;
    SanitizeGivesKeptRows(raw);
    ReloadIsIdentityIff(SanitizeSeries(raw));
  }

  /** The second load turns the unknown baseline into zero, and the next observation is credited in full. */
  lemma NullCounterBecomesZero(raw: RawSeries, obs: Observation)
    requires raw.output.Absent? && 0.0 < obs.output <= MAX_CREDITABLE_DELTA
    ensures CreditOf(SanitizeSeries(raw), obs).None?
    ensures CreditOf(Reloaded(SanitizeSeries(raw)), obs).Some?
    ensures CreditOf(Reloaded(SanitizeSeries(raw)), obs).value.output == obs.output
  {
  }

  // --- Whole numbers --------------------------------------------------------------------------

  predicate WholeCount(n: Option<real>) {
    n.Some? ==> Whole(n.value)
  }

  predicate WholeObservation(obs: Observation) {
    ObservationOk(obs) && Whole(obs.output) && WholeCount(obs.prompt) && WholeCount(obs.cached)
  }

  predicate WholeRow(row: Row) {
    Whole(row.prompt) && Whole(row.completion) && Whole(row.cached)
  }

  predicate WholeCounters(c: Counters) {
    WholeCount(c.output) && WholeCount(c.prompt) && WholeCount(c.cached)
  }

  /** Everything the ledger can hold while its counters are whole numbers. */
  predicate SeriesWhole(s: Series) {
    && SeriesOk(s)
    && CountersKept(s.counters) && WholeCounters(s.counters)
    && (forall m :: m in s.models ==> WholeRow(s.models[m].tokens))
    && (forall d, m :: d in s.daily && m in s.daily[d] ==> WholeRow(s.daily[d][m]))
  }

  predicate LedgerWhole(ledger: Ledger) {
    forall s :: s in ledger ==> SeriesWhole(ledger[s])
  }

  lemma IntegerWhole(n: int, x: real)
    requires x == n as real
    ensures Whole(x)
  {
  }

  lemma WholeSum(a: real, b: real)
    requires Whole(a) && Whole(b)
    ensures Whole(a + b) && Whole(a - b)
  {
    var m, n := a.Floor, b.Floor;
    IntegersAdd(m, n, a, b);
    IntegerWhole(m + n, a + b);
    IntegerWhole(m - n, a - b);
  }

  lemma IntegersAdd(m: int, n: int, a: real, b: real)
    requires a == m as real && b == n as real
    ensures a + b == (m + n) as real && a - b == (m - n) as real
  {
  }

  lemma WholePlus(a: real, amount: real)
    requires Whole(a) && Whole(amount)
    ensures Whole(Plus(a, amount))
  {
    WholeSum(a, amount);
    assert MAX_TOKENS == 9_007_199_254_740_991 as real;
    assert Whole(MAX_TOKENS);
  }

  lemma WholeCredit(row: Row, c: Credit)
    requires WholeRow(row) && Whole(c.output) && Whole(c.prompt) && Whole(c.cached)
    ensures WholeRow(CreditRow(row, c))
  {
    hide Whole;
    WholePlus(row.prompt, c.prompt);
    WholePlus(row.completion, c.output);
    WholePlus(row.cached, c.cached);
    var prompt, cached := Plus(row.prompt, c.prompt), Plus(row.cached, c.cached);
    WholeSum(cached, prompt);
    WholePlus(prompt, cached - prompt);
  }

  lemma WholeGrowth(reading: Option<real>, base: Option<real>)
    requires WholeCount(reading) && WholeCount(base)
    ensures Whole(Growth(reading, base))
  {
    if reading.Some? && base.Some? { WholeSum(reading.value, base.value); }
  }

  lemma WholeCreditOf(s: Series, obs: Observation)
    requires WholeCounters(s.counters) && WholeObservation(obs)
    ensures var c := CreditOf(s, obs); c.Some? ==>
              Whole(c.value.output) && Whole(c.value.prompt) && Whole(c.value.cached)
  {
    hide Whole, Growth;
    WholeGrowth(obs.prompt, s.counters.prompt);
    WholeGrowth(obs.cached, s.counters.cached);
    if s.counters.output.Some? { WholeSum(obs.output, s.counters.output.value); }
  }

  predicate WholeRows(s: Series) {
    && (forall m :: m in s.models ==> WholeRow(s.models[m].tokens))
    && (forall d, m :: d in s.daily && m in s.daily[d] ==> WholeRow(s.daily[d][m]))
  }

  lemma CreditedRowsWhole(s: Series, c: Credit, now: int)
    requires WholeRows(s) && Whole(c.output) && Whole(c.prompt) && Whole(c.cached)
    ensures WholeRows(s.(models := CreditModels(s.models, c, now), daily := CreditDaily(s.daily, c, now)))
  {
    hide WholeRow, CreditRow;
    NoTokensWhole();
    WholeCredit(LifetimeAt(s.models, c.model), c);
    WholeCredit(TokensAt(DayAt(s.daily, DayOf(now)), c.model), c);
  }

  lemma NoTokensWhole()
    ensures WholeRow(NO_TOKENS)
  {
  }

  lemma ObservedWhole(s: Series, obs: Observation, now: int)
    requires (SeriesWhole(s) || s == NEW_SERIES) && WholeObservation(obs)
    ensures SeriesWhole(Observed(s, obs, now))
  {
    hide WholeRow, CreditRow, RowOk, CreditModels, CreditDaily;
    ObservedKeepsOk(s, obs, now);
    WholeCreditOf(s, obs);
    if CreditOf(s, obs).Some? {
      CreditedRowsWhole(s, CreditOf(s, obs).value, now);
    }
  }

  lemma {:induction false} ObservedAllWhole(ledger: Ledger, batch: seq<Observation>, now: int)
    requires LedgerWhole(ledger) && forall obs :: obs in batch ==> WholeObservation(obs)
    ensures LedgerWhole(ObservedAll(ledger, batch, now))
  {
    hide SeriesWhole, Observed, WholeObservation;
    if batch != [] {
      var rest, obs := batch[..|batch| - 1], batch[|batch| - 1];
      ObservedAllWhole(ledger, rest, now);
      ObservedWhole(SeriesAt(ObservedAll(ledger, rest, now), obs.id), obs, now);
    }
  }

  lemma WholeReloads(s: Series)
    requires SeriesWhole(s)
    ensures Reloaded(s) == s
  {
    hide Reloaded, Whole;
    forall d, m | d in s.daily && m in s.daily[d] ensures RowKept(s.daily[d][m]) {
      assert DayOk(s.daily[d]);
    }
    ReloadIsIdentityIff(s);
  }

  /** With whole counters, flush and load give back the ledger as it was. */
  lemma LedgerReloads(ledger: Ledger)
    requires LedgerWhole(ledger)
    ensures SanitizeLedger(LedgerJson(ledger)) == ledger
  {
    hide SanitizeSeries, SeriesJson, SeriesWhole;
    var back := SanitizeLedger(LedgerJson(ledger));
    assert back.Keys == ledger.Keys;
    forall s | s in ledger ensures back[s] == ledger[s] {
      ReloadsAs(ledger[s]);
    }
  }

  lemma ReloadsAs(s: Series)
    requires SeriesWhole(s)
    ensures SanitizeSeries(SeriesJson(s)) == s
  {
    hide SanitizeSeries, SeriesJson, SeriesWhole;
    WholeReloads(s);
  }

  /** Whatever the figures, a ledger with well-formed rows is well-formed after a reload. */
  lemma ReloadKeepsOk(s: Series)
    requires SeriesOk(s)
    ensures SeriesOk(Reloaded(s))
  {
    hide AsCount;
    forall row: Row | RowOk(row) ensures RowOk(SanitizeRow(RowJson(row))) {
      RoundedOk(row);
    }
    forall d | d in s.daily ensures DayOk(SanitizeDay(DayJson(s.daily[d]))) {
    }
  }

  lemma RoundedOk(row: Row)
    requires RowOk(row)
    ensures RowOk(SanitizeRow(RowJson(row)))
  {
    RoundBounded(row.prompt);
    RoundBounded(row.completion);
    RoundBounded(row.cached);
  }

  lemma RoundBounded(x: real)
    requires x <= MAX_TOKENS
    ensures AsCount(Number(x)) <= MAX_TOKENS
  {
    assert (x + 0.5).Floor as real <= x + 0.5 < 9_007_199_254_740_992 as real;
  }

  // --- Restarts -------------------------------------------------------------------------------

  /** What decides future credits: the baselines, and the model to fall back on. */
  datatype Baselines =
    | Unknown(fallback: string)
    | Known(output: real, prompt: Option<real>, cached: Option<real>, fallback: string)

  function Fallback(s: Series): string {
    if s.lastModelId.Some? then s.lastModelId.value else UNKNOWN_MODEL
  }

  function BaselinesOf(s: Series): Baselines {
    match s.counters.output
    case None => Unknown(Fallback(s))
    case Some(output) => Known(output, s.counters.prompt, s.counters.cached, Fallback(s))
  }

  /** An observation of a series and the time it is made. */
  datatype Reading = Reading(obs: Observation, now: int)

  predicate ReadingsOk(readings: seq<Reading>) {
    forall r :: r in readings ==> ObservationOk(r.obs)
  }

  /** What a series credits for each of a list of readings, in order. */
  function Credits(s: Series, readings: seq<Reading>): seq<Option<Credit>>
    decreases |readings|
  {
    if readings == [] then []
    else
      var first := readings[0];
      [CreditOf(s, first.obs)] + Credits(Observed(s, first.obs, first.now), readings[1..])
  }

  ghost predicate CreditAlike(s: Series, t: Series) {
    forall readings :: ReadingsOk(readings) ==> Credits(s, readings) == Credits(t, readings)
  }

  function Probe(id: SeriesId, model: Option<string>, output: real, prompt: Option<real>,
                 cached: Option<real>): Observation {
    Observation(id, model, output, prompt, cached)
  }

  /**
    Two versions of a series, say in memory and in the file, credit every list of later observations alike
    exactly when their baselines and fallback models agree.
   */
  lemma BaselinesDecideCredits(s: Series, t: Series, id: SeriesId)
    requires CountOk(s.counters.output) && CountOk(s.counters.prompt) && CountOk(s.counters.cached)
    requires CountOk(t.counters.output) && CountOk(t.counters.prompt) && CountOk(t.counters.cached)
    ensures CreditAlike(s, t) <==> BaselinesOf(s) == BaselinesOf(t)
  {
    hide Credits, CreditOf;
    if CreditAlike(s, t) {
      forall obs | ObservationOk(obs) ensures CreditOf(s, obs) == CreditOf(t, obs) {
        OneReading(s, t, obs);
      }
      SameOutputs(s, t, id);
      if s.counters.output.Some? {
        SameOptional(s, t, id);
      } else {
        SameFallbacks(s, t, id);
      }
    }
    if BaselinesOf(s) == BaselinesOf(t) {
      forall readings | ReadingsOk(readings) ensures Credits(s, readings) == Credits(t, readings) {
        SameCredits(s, t, readings);
      }
    }
  }

  /** Equal baselines stay equal, whatever is observed. */
  lemma {:induction false} SameCredits(s: Series, t: Series, readings: seq<Reading>)
    requires BaselinesOf(s) == BaselinesOf(t)
    ensures Credits(s, readings) == Credits(t, readings)
    decreases |readings|
  {
    hide CreditOf, Observed, BaselinesOf;
    if readings != [] {
      var first := readings[0];
      SameBaselinesStep(s, t, first.obs, first.now);
      SameCredits(Observed(s, first.obs, first.now), Observed(t, first.obs, first.now), readings[1..]);
    }
  }

  lemma SameBaselinesStep(s: Series, t: Series, obs: Observation, now: int)
    requires BaselinesOf(s) == BaselinesOf(t)
    ensures CreditOf(s, obs) == CreditOf(t, obs)
    ensures BaselinesOf(Observed(s, obs, now)) == BaselinesOf(Observed(t, obs, now))
  {
    hide CreditModels, CreditDaily;
  }

  lemma OneReading(s: Series, t: Series, obs: Observation)
    requires CreditAlike(s, t) && ObservationOk(obs)
    ensures CreditOf(s, obs) == CreditOf(t, obs)
  {
    hide CreditOf, Observed;
    var readings := [Reading(obs, 0)];
    assert ReadingsOk(readings);
    assert Credits(s, readings)[0] == Credits(t, readings)[0];
  }

  /** With no baseline the first observation credits nothing; the second shows the fallback model. */
  lemma SameFallbacks(s: Series, t: Series, id: SeriesId)
    requires s.counters.output.None? && t.counters.output.None? && CreditAlike(s, t)
    ensures Fallback(s) == Fallback(t)
  {
    hide Credits, CreditModels, CreditDaily;
    var first, second := Reading(Probe(id, None, 0.0, None, None), 0), Reading(Probe(id, None, 1.0, None, None), 0);
    assert ReadingsOk([first, second]);
    SecondCredit(s, first, second);
    SecondCredit(t, first, second);
    assert Credits(s, [first, second])[1] == Credits(t, [first, second])[1];
  }

  lemma SecondCredit(s: Series, first: Reading, second: Reading)
    ensures var credits := Credits(s, [first, second]);
            |credits| == 2 && credits[1] == CreditOf(Observed(s, first.obs, first.now), second.obs)
  {
    hide CreditOf, Observed;
    assert [first, second][1..] == [second];
    var after := Observed(s, first.obs, first.now);
    assert Credits(after, [second]) == [CreditOf(after, second.obs)];
  }

  lemma SameOutputs(s: Series, t: Series, id: SeriesId)
    requires CountOk(s.counters.output) && CountOk(t.counters.output)
    requires forall obs :: ObservationOk(obs) ==> CreditOf(s, obs) == CreditOf(t, obs)
    ensures s.counters.output == t.counters.output
    ensures s.counters.output.Some? ==> Fallback(s) == Fallback(t)
  {
    if s.counters.output.Some? {
      var obs := Probe(id, None, s.counters.output.value + 1.0, None, None);
      assert ObservationOk(obs);
      assert CreditOf(s, obs).Some? && CreditOf(s, obs).value.output == 1.0;
    }
    if t.counters.output.Some? {
      var obs := Probe(id, None, t.counters.output.value + 1.0, None, None);
      assert ObservationOk(obs);
      assert CreditOf(t, obs).Some? && CreditOf(t, obs).value.output == 1.0;
    }
  }

  lemma SameOptional(s: Series, t: Series, id: SeriesId)
    requires CountOk(s.counters.prompt) && CountOk(t.counters.prompt) && CountOk(s.counters.cached)
    requires CountOk(t.counters.cached)
    requires s.counters.output.Some? && s.counters.output.value >= 0.0 && s.counters.output == t.counters.output
    requires forall obs :: ObservationOk(obs) ==> CreditOf(s, obs) == CreditOf(t, obs)
    ensures s.counters.prompt == t.counters.prompt && s.counters.cached == t.counters.cached
  {
    var next := s.counters.output.value + 1.0;
    forall x | x >= 0.0
      ensures Growth(Some(x), s.counters.prompt) == Growth(Some(x), t.counters.prompt)
      ensures Growth(Some(x), s.counters.cached) == Growth(Some(x), t.counters.cached)
    {
      var p := Probe(id, None, next, Some(x), Some(x));
      assert ObservationOk(p);
      assert CreditOf(s, p) == CreditOf(t, p);
    }
    SameGrowth(s.counters.prompt, t.counters.prompt);
    SameGrowth(s.counters.cached, t.counters.cached);
  }

  lemma SameGrowth(a: Option<real>, b: Option<real>)
    requires CountOk(a) && CountOk(b)
    requires forall x :: x >= 0.0 ==> Growth(Some(x), a) == Growth(Some(x), b)
    ensures a == b
  {
    if a.Some? {
      assert Growth(Some(a.value + 1.0), a) == 1.0;
      assert Growth(Some(a.value + 1.0), b) == 1.0;
    }
    if b.Some? {
      assert Growth(Some(b.value + 1.0), b) == 1.0;
      assert Growth(Some(b.value + 1.0), a) == 1.0;
    }
  }

  /**
    An observation that changes nothing worth saving moves at most the prompt and cached baselines, the last model and
    the time.
   */
  lemma QuietObservation(s: Series, obs: Observation, now: int)
    requires !Changes(s, obs)
    ensures var after := Observed(s, obs, now);
            && after.counters.output == s.counters.output
            && after.models == s.models && after.daily == s.daily
  {
  }

  /**
    That is enough to make a restart visible: the quiet observation is not saved, and after a restart
    the next one is credited cached tokens that the running ledger would have passed over.
   */
  lemma QuietObservationIsLost(id: SeriesId)
    ensures var saved := Series(0, Some("m"), Counters(Some(10.0), Some(5.0), Some(0.0)), map[], map[]);
            var quiet, next := Probe(id, Some("m"), 10.0, Some(5.0), Some(3.0)),
              Probe(id, Some("m"), 11.0, Some(5.0), Some(3.0));
            && !Changes(saved, quiet)
            && CreditOf(Observed(saved, quiet, 1), next) == Some(Credit("m", 1.0, 0.0, 0.0))
            && CreditOf(Reloaded(saved), next) == Some(Credit("m", 1.0, 0.0, 3.0))
  {
  }
}
