/**
  The state of the fleet energy tracker (server/energy/FleetEnergyTracker.js) as a value, and
  what one call of `record` or one pruning does to it.
 */
module EnergyState {
  import opened Options
  import opened EnergyArithmetic
  import opened EnergyBuckets
  import opened FiniteSets
  import opened RealArithmetic

  const MAX_GAP_MS := 10_000.0
  const DAY_MS := 86_400_000.0
  const RETENTION_MS := 31.0 * DAY_MS
  const MAX_BUCKETS := 44_640 + 1

  // --- Telemetry ------------------------------------------------------------------------------

  /** The fields of a monitor snapshot that the estimate reads; None is a number that is missing or not finite. */
  datatype Snapshot = Snapshot(id: string, telemetryFresh: bool, gpuDraw: Option<real>, cpuUsage: Option<real>)

  /** Whole-system draw of a node: None exactly when the telemetry is unusable, else within the hardware's limits. */
  function EstimateNodeWatts(s: Snapshot): (watts: Option<real>)
    ensures watts.None? <==> !s.telemetryFresh || s.gpuDraw.None? || s.gpuDraw.value < 0.0 || s.cpuUsage.None?
    ensures watts.Some? ==> MIN_NODE_WATTS <= watts.value <= MAX_NODE_WATTS
    ensures watts.Some? && s.cpuUsage.value <= 0.0 && s.gpuDraw.value == 0.0 ==> watts.value == MIN_NODE_WATTS
  {
    if !s.telemetryFresh || s.gpuDraw.None? || s.gpuDraw.value < 0.0 || s.cpuUsage.None? then None
    else
      var boundedCpuUsage := Clamp(s.cpuUsage.value, 0.0, 100.0);
      var cpuWatts := 5.2 + (65.0 - 5.2) * boundedCpuUsage / 100.0;
      Some(Clamp(s.gpuDraw.value + cpuWatts + 23.0, 0.0, 240.0))
  }

  /** The last snapshot of a node in a batch. */
  function LastSnapshot(snapshots: seq<Snapshot>, id: string): Option<Snapshot> {
    if snapshots == [] then None
    else if snapshots[|snapshots| - 1].id == id then Some(snapshots[|snapshots| - 1])
    else LastSnapshot(snapshots[..|snapshots| - 1], id)
  }

  function Reading(snapshots: seq<Snapshot>, id: string): (watts: Option<real>)
    ensures watts.Some? ==> MIN_NODE_WATTS <= watts.value <= MAX_NODE_WATTS
  {
    var s := LastSnapshot(snapshots, id);
    if s.None? then None else EstimateNodeWatts(s.value)
  }

  /** Estimated watts of the nodes with usable telemetry in a batch. */
  function Readings(snapshots: seq<Snapshot>, ids: seq<string>): (readings: map<string, real>)
    ensures ValidReadings(readings, ids)
  {
    map id | id in ids && Reading(snapshots, id).Some? :: Reading(snapshots, id).value
  }

  predicate ValidReadings(readings: map<string, real>, ids: seq<string>) {
    forall id :: id in readings ==> id in ids && MIN_NODE_WATTS <= readings[id] <= MAX_NODE_WATTS
  }

  /** The one token counter of a batch, if it names exactly one. */
  datatype TokenReading = TokenReading(headId: string, port: int, totalOutputTokens: int)

  datatype TokenObservation = TokenObservation(source: TokenReading, observedAtMs: real)

  predicate ValidTokens(reading: TokenReading, ids: seq<string>) {
    reading.headId in ids && 0 <= reading.port <= MAX_SAFE_INTEGER && 0 <= reading.totalOutputTokens <= MAX_SAFE_INTEGER
  }

  // --- State ----------------------------------------------------------------------------------

  datatype State = State(
    buckets: Buckets,
    baselines: map<string, Sample>,
    fleetBaseline: Option<Sample>,
    highWater: Option<real>,
    tokenCounter: Option<TokenObservation>,
    tokenNeedsRebase: bool,
    latestRecordAt: Option<real>,
    dirty: bool)

  const FRESH := State(map[], map[], None, None, None, false, None, false)

  /** The part of the interval between two samples that lies after the high-water mark. */
  function UnaccountedInterval(previous: Sample, current: Sample, highWater: Option<real>): (r: Option<Ramp>)
    requires previous.atMs < current.atMs
    ensures r.Some? ==> r.value.Valid() && r.value.current == current
  {
    if highWater.None? then Some(Ramp(previous, current))
    else if current.atMs <= highWater.value then None
    else if previous.atMs >= highWater.value then Some(Ramp(previous, current))
    else Some(Ramp(previous, current).From(highWater.value))
  }

  /** The interval a sample closes: none without a baseline at most ten seconds older. */
  function Interval(baseline: Option<Sample>, current: Sample, highWater: Option<real>): (r: Option<Ramp>)
    ensures r.Some? ==> r.value.Valid() && r.value.current == current
  {
    if baseline.Some? && 0.0 < current.atMs - baseline.value.atMs <= MAX_GAP_MS
    then UnaccountedInterval(baseline.value, current, highWater)
    else None
  }

  function BaselineOf(baselines: map<string, Sample>, id: string): Option<Sample> {
    if id in baselines then Some(baselines[id]) else None
  }

  function NodeInterval(st: State, readings: map<string, real>, t: real, id: string): (r: Option<Ramp>)
    ensures r.Some? ==> id in readings && r.value.Valid() && r.value.current == Sample(t, readings[id])
  {
    if id in readings then Interval(BaselineOf(st.baselines, id), Sample(t, readings[id]), st.highWater) else None
  }

  predicate FullFleet(ids: seq<string>, readings: map<string, real>) {
    ids != [] && forall id :: id in ids ==> id in readings
  }

  function FleetInterval(st: State, ids: seq<string>, readings: map<string, real>, t: real): (r: Option<Ramp>)
    ensures r.Some? ==>
              FullFleet(ids, readings) && r.value.Valid() && r.value.current == Sample(t, Total(ids, readings))
  {
    if FullFleet(ids, readings) then Interval(st.fleetBaseline, Sample(t, Total(ids, readings)), st.highWater) else None
  }

  /** The buckets after the first `k` nodes were integrated up to `t`. */
  function CreditNodes(st: State, ids: seq<string>, readings: map<string, real>, t: real, k: nat): Buckets
    requires k <= |ids|
  {
    if k == 0 then st.buckets
    else
      var before := CreditNodes(st, ids, readings, t, k - 1);
      match NodeInterval(st, readings, t, ids[k - 1])
      case None => before
      case Some(r) => Credited(before, ids, Node(ids[k - 1]), r, r.previous.atMs, t)
  }

  function CreditFleet(st: State, ids: seq<string>, readings: map<string, real>, t: real): Buckets {
    var nodes := CreditNodes(st, ids, readings, t, |ids|);
    match FleetInterval(st, ids, readings, t)
    case None => nodes
    case Some(r) => Credited(nodes, ids, Fleet, r, r.previous.atMs, t)
  }

  predicate Integrates(st: State, ids: seq<string>, readings: map<string, real>, t: real) {
    || (exists id :: id in ids && NodeInterval(st, readings, t, id).Some?)
    || FleetInterval(st, ids, readings, t).Some?
  }

  predicate ValidHighWater(t: real) {
    0.0 <= t <= MAX_SAFE_INTEGER as real
  }

  function Advance(highWater: Option<real>, t: real): Option<real> {
    Some(Max(if highWater.Some? then highWater.value else t, t))
  }

  /** A clock that stepped back drops every baseline. */
  function AfterRollback(st: State, t: real): State {
    if st.latestRecordAt.Some? && t < st.latestRecordAt.value
    then st.(tokenNeedsRebase := true, baselines := map[], fleetBaseline := None)
    else st
  }

  function Integrated(st: State, ids: seq<string>, readings: map<string, real>, t: real): State {
    st.(buckets := CreditFleet(st, ids, readings, t),
        baselines := map id | id in ids && id in readings :: Sample(t, readings[id]),
        fleetBaseline := if FullFleet(ids, readings) then Some(Sample(t, Total(ids, readings))) else None,
        highWater := if Integrates(st, ids, readings, t) && ValidHighWater(t) then Advance(st.highWater, t)
          else st.highWater)
  }

  function AddSafely(total: int, delta: int): int {
    if total + delta <= MAX_SAFE_INTEGER then total + delta else total
  }

  predicate MustRebase(st: State, reading: TokenReading, t: real) {
    || st.tokenCounter.None?
    || st.tokenNeedsRebase
    || st.tokenCounter.value.source.headId != reading.headId
    || st.tokenCounter.value.source.port != reading.port
    || reading.totalOutputTokens < st.tokenCounter.value.source.totalOutputTokens
    || t - st.tokenCounter.value.observedAtMs < 0.0
    || t - st.tokenCounter.value.observedAtMs > MAX_GAP_MS
  }

  function TokensAdded(b: Bucket, delta: int, covered: bool): Bucket {
    b.(outputTokens := AddSafely(b.outputTokens, delta),
       coveredOutputTokens := if covered then AddSafely(b.coveredOutputTokens, delta) else b.coveredOutputTokens)
  }

  function TokensRecorded(st: State, ids: seq<string>, reading: Option<TokenReading>, t: real, covered: bool): State {
    if reading.None? then st
    else
      var total := reading.value.totalOutputTokens;
      var buckets :=
        if !MustRebase(st, reading.value, t) && total > st.tokenCounter.value.source.totalOutputTokens then
          st.buckets[MinuteOf(t) := TokensAdded(BucketAt(st.buckets, MinuteOf(t), ids),
                                                total - st.tokenCounter.value.source.totalOutputTokens, covered)]
        else st.buckets;
      st.(buckets := buckets,
          tokenCounter := Some(TokenObservation(reading.value, t)),
          tokenNeedsRebase := false,
          dirty := true)
  }

  // --- Pruning --------------------------------------------------------------------------------

  function AlignedWindowCutoff(atMs: real, windowMs: real): int {
    MinuteOf(atMs - windowMs)
  }

  /** Buckets not older than the cutoff, and of those only the newest 44,641. */
  function Survivors(starts: set<int>, cutoff: int): set<int> {
    set m | m in starts && m >= cutoff && |Newer(starts, m)| < MAX_BUCKETS
  }

  function Kept(buckets: Buckets, keep: set<int>): Buckets {
    map m | m in buckets && m in keep :: buckets[m]
  }

  function Pruned(st: State, now: real): State {
    var keep := Survivors(st.buckets.Keys, AlignedWindowCutoff(now, RETENTION_MS));
    st.(buckets := Kept(st.buckets, keep), dirty := st.dirty || keep != st.buckets.Keys)
  }

  /** One call of `record` at a new timestamp `t`, up to its final pruning. */
  function Counted(st: State, ids: seq<string>, readings: map<string, real>, tokens: Option<TokenReading>,
                   t: real): State {
    var start := AfterRollback(st, t);
    var integrated := Integrated(start, ids, readings, t).(latestRecordAt := Some(t), dirty := true);
    TokensRecorded(integrated, ids, tokens, t, FleetInterval(start, ids, readings, t).Some?)
  }

  /** One call of `record` at `t`. */
  function Recorded(st: State, ids: seq<string>, readings: map<string, real>, tokens: Option<TokenReading>,
                    t: real): State {
    if st.latestRecordAt == Some(t) then st else Pruned(Counted(st, ids, readings, tokens, t), t)
  }
}
