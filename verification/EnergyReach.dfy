/**
  Which buckets `record` can produce: exactly those that the validator accepts and that meet four further conditions.
 */
module EnergyReach {
  import opened Options
  import opened EnergyArithmetic
  import opened EnergyBuckets
  import opened EnergyState
  import opened EnergyInvariant
  import opened EnergyFullFleet
  import opened EnergyPersistence
  import opened EnergyTelemetry
  import opened EnergySchedule
  import opened EnergyPlayback
  import opened EnergyCredits
  import opened EnergyRuns

  predicate AllValid(events: seq<Event>, ids: seq<string>) {
    forall i :: 0 <= i < |events| ==> ValidEvent(events[i], ids)
  }

  lemma AllValidConcat(a: seq<Event>, b: seq<Event>, ids: seq<string>)
    requires AllValid(a, ids) && AllValid(b, ids)
    ensures AllValid(a + b, ids)
  {
  }

  /** The memory after a run. */
  ghost function MemoryAfter(ids: seq<string>, tolerance: real, events: seq<Event>): State {
    Run(ids, tolerance, events).memory
  }

  lemma RecordMore(ids: seq<string>, tolerance: real, events: seq<Event>, readings: map<string, real>,
                   tokens: Option<TokenReading>, t: real)
    requires ValidReadings(readings, ids)
    ensures MemoryAfter(ids, tolerance, events + [Record(SnapshotsOf(ids, readings), tokens, t)])
         == Recorded(MemoryAfter(ids, tolerance, events), ids, readings, tokens, t)
  {
    hide Recorded, NewCredits, Run;
    OneMore(ids, tolerance, events, Record(SnapshotsOf(ids, readings), tokens, t));
    SnapshotsRead(ids, readings);
  }

  // --- Playing a plan ---------------------------------------------------------------------------

  /** Three calls for a stretch: one without samples, which drops all baselines, and one at each of its ends. */
  function Calls(ids: seq<string>, s: Segment, x: real, pause: real): seq<Event> {
    [Record(SnapshotsOf(ids, map[]), None, pause),
     Record(SnapshotsOf(ids, s.watts), None, x),
     Record(SnapshotsOf(ids, s.watts), None, x + s.duration)]
  }

  /** An instant before `x` at which the latest record was not. */
  function PauseBefore(st: State, x: real): real {
    if st.latestRecordAt == Some(x - 1.0) then x - 2.0 else x - 1.0
  }

  /** A stretch of constant draw that fits into the minute and under the ten seconds that `record` bridges. */
  predicate Bridged(ids: seq<string>, m: int, x: real, s: Segment) {
    && Playable(ids, m) && SegmentOk(s, ids)
    && 0.0 < s.duration <= MAX_GAP_MS && x + s.duration <= (m + MINUTE_MS) as real
  }

  lemma ThreeRecords(st: State, ids: seq<string>, m: int, x: real, s: Segment)
    requires Ready(st, ids, m, x) && Bridged(ids, m, x, s)
    ensures var paused := Recorded(st, ids, map[], None, PauseBefore(st, x));
            var sampled := Recorded(paused, ids, s.watts, None, x);
            var after := Recorded(sampled, ids, s.watts, None, x + s.duration);
            && Ready(after, ids, m, x + s.duration)
            && BucketAt(after.buckets, m, ids) == Played(BucketAt(st.buckets, m, ids), ids, s)
  {
    hide Recorded, Inv, Near, Total, FullFleet, Played, BucketAt;
    QuietRecord(st, ids, map[], m, x, PauseBefore(st, x));
    var paused := Recorded(st, ids, map[], None, PauseBefore(st, x));
    NobodySampled(ids);
    QuietRecord(paused, ids, s.watts, m, x, x);
    var sampled := Recorded(paused, ids, s.watts, None, x);
    SamplesOfReadings(ids, s.watts, x);
    StretchRecord(sampled, ids, s.watts, m, x, s.duration);
  }

  lemma NobodySampled(ids: seq<string>)
    ensures ids != [] ==> !FullFleet(ids, map[])
  {
    if ids != [] { assert ids[0] in ids; }
  }

  lemma SamplesOfReadings(ids: seq<string>, readings: map<string, real>, t: real)
    requires ValidReadings(readings, ids)
    ensures (map id | id in ids && id in readings :: Sample(t, readings[id])) == Baselines(readings, t)
  {
  }

  lemma PlayStretch(ids: seq<string>, tolerance: real, events: seq<Event>, m: int, x: real, s: Segment)
    returns (more: seq<Event>)
    requires Bridged(ids, m, x, s) && Ready(MemoryAfter(ids, tolerance, events), ids, m, x)
    ensures AllValid(more, ids)
    ensures var before, after := MemoryAfter(ids, tolerance, events), MemoryAfter(ids, tolerance, events + more);
            && Ready(after, ids, m, x + s.duration)
            && BucketAt(after.buckets, m, ids) == Played(BucketAt(before.buckets, m, ids), ids, s)
  {
    hide Ready, Recorded, Played, BucketAt, MemoryAfter;
    var st := MemoryAfter(ids, tolerance, events);
    var pause := PauseBefore(st, x);
    more := Calls(ids, s, x, pause);
    InstantsValid(st, ids, m, x, s);
    ThreeRecords(st, ids, m, x, s);
    RecordMore(ids, tolerance, events, map[], None, pause);
    RecordMore(ids, tolerance, events + [more[0]], s.watts, None, x);
    RecordMore(ids, tolerance, events + [more[0]] + [more[1]], s.watts, None, x + s.duration);
    assert events + more == events + [more[0]] + [more[1]] + [more[2]];
  }

  lemma InstantsValid(st: State, ids: seq<string>, m: int, x: real, s: Segment)
    requires Ready(st, ids, m, x) && Bridged(ids, m, x, s)
    ensures AllValid(Calls(ids, s, x, PauseBefore(st, x)), ids)
  {
    hide Inv, Near;
  }

  lemma PlayedTwice(b: Bucket, ids: seq<string>, watts: map<string, real>, d: real, d': real)
    ensures Played(Played(b, ids, Segment(watts, d)), ids, Segment(watts, d')) == Played(b, ids, Segment(watts, d + d'))
  {
    var twice := Played(Played(b, ids, Segment(watts, d)), ids, Segment(watts, d'));
    var once := Played(b, ids, Segment(watts, d + d'));
    hide Drawn, Total, FullFleet;
    forall id | id in ids ensures twice.nodeWh[id] == once.nodeWh[id] {
      if id in watts { DrawnAdds(watts[id], d, d'); }
    }
    DrawnAdds(Total(ids, watts), d, d');
    assert twice.nodeWh == once.nodeWh;
    assert twice.nodeCoverageMs == once.nodeCoverageMs;
  }

  lemma PlayedNothing(b: Bucket, ids: seq<string>, watts: map<string, real>)
    requires Shaped(b, ids)
    ensures Played(b, ids, Segment(watts, 0.0)) == b
  {
    var played := Played(b, ids, Segment(watts, 0.0));
    assert played.nodeWh == b.nodeWh;
    assert played.nodeCoverageMs == b.nodeCoverageMs;
  }

  lemma ReadyShaped(st: State, ids: seq<string>, m: int, x: real)
    requires Ready(st, ids, m, x)
    ensures Shaped(BucketAt(st.buckets, m, ids), ids)
  {
  }

  function Multiple(n: nat, d: real): real {
    if n == 0 then 0.0 else Multiple(n - 1, d) + d
  }

  lemma {:induction false} MultipleIs(n: nat, d: real)
    ensures Multiple(n, d) == n as real * d
  {
    if n > 0 {
      MultipleIs(n - 1, d);
      Undistribute(d, (n - 1) as real, 1.0);
    }
  }

  /** A longer stretch is played in equal pieces. */
  lemma {:induction false} PlayPieces(ids: seq<string>, tolerance: real, events: seq<Event>, m: int, x: real,
                                      piece: Segment, n: nat)
    returns (more: seq<Event>)
    requires Playable(ids, m) && SegmentOk(piece, ids) && 0.0 < piece.duration <= MAX_GAP_MS
    requires x + Multiple(n, piece.duration) <= (m + MINUTE_MS) as real
    requires Ready(MemoryAfter(ids, tolerance, events), ids, m, x)
    ensures AllValid(more, ids)
    ensures var before, after := MemoryAfter(ids, tolerance, events), MemoryAfter(ids, tolerance, events + more);
            && Ready(after, ids, m, x + Multiple(n, piece.duration))
            && BucketAt(after.buckets, m, ids)
            == Played(BucketAt(before.buckets, m, ids), ids, Segment(piece.watts, Multiple(n, piece.duration)))
  {
    hide Ready, Played, BucketAt, MemoryAfter;
    if n == 0 {
      more := [];
      assert events + [] == events;
      ReadyShaped(MemoryAfter(ids, tolerance, events), ids, m, x);
      PlayedNothing(BucketAt(MemoryAfter(ids, tolerance, events).buckets, m, ids), ids, piece.watts);
    } else {
      var d, before := piece.duration, Multiple(n - 1, piece.duration);
      assert Multiple(n, d) == before + d;
      hide Multiple;
      var most := PlayPieces(ids, tolerance, events, m, x, piece, n - 1);
      var last := PlayStretch(ids, tolerance, events + most, m, x + before, piece);
      more := most + last;
      AllValidConcat(most, last, ids);
      assert events + more == events + most + last;
      assert x + before + d == x + Multiple(n, d);
      PlayedTwice(BucketAt(MemoryAfter(ids, tolerance, events).buckets, m, ids), ids, piece.watts, before, d);
    }
  }

  lemma PlaySegment(ids: seq<string>, tolerance: real, events: seq<Event>, m: int, x: real, s: Segment)
    returns (more: seq<Event>)
    requires Playable(ids, m) && SegmentOk(s, ids) && x + s.duration <= (m + MINUTE_MS) as real && m as real <= x
    requires Ready(MemoryAfter(ids, tolerance, events), ids, m, x)
    ensures AllValid(more, ids)
    ensures var before, after := MemoryAfter(ids, tolerance, events), MemoryAfter(ids, tolerance, events + more);
            && Ready(after, ids, m, x + s.duration)
            && BucketAt(after.buckets, m, ids) == Played(BucketAt(before.buckets, m, ids), ids, s)
  {
    hide Ready, Played, BucketAt, MemoryAfter, Multiple;
    if s.duration == 0.0 {
      more := [];
      assert events + [] == events && x + s.duration == x && s == Segment(s.watts, 0.0);
      ReadyShaped(MemoryAfter(ids, tolerance, events), ids, m, x);
      PlayedNothing(BucketAt(MemoryAfter(ids, tolerance, events).buckets, m, ids), ids, s.watts);
    } else {
      var piece := Segment(s.watts, s.duration / 6.0);
      MultipleIs(6, piece.duration);
      assert Multiple(6, piece.duration) == s.duration;
      more := PlayPieces(ids, tolerance, events, m, x, piece, 6);
      assert s == Segment(piece.watts, Multiple(6, piece.duration));
    }
  }

  function PlayedAll(b: Bucket, ids: seq<string>, plan: Plan): Bucket {
    if plan == [] then b else Played(PlayedAll(b, ids, plan[..|plan| - 1]), ids, plan[|plan| - 1])
  }

  lemma {:induction false} PlayPlan(ids: seq<string>, tolerance: real, events: seq<Event>, m: int, x: real, plan: Plan)
    returns (more: seq<Event>)
    requires Playable(ids, m) && PlanOk(plan, ids) && x + Length(plan) <= (m + MINUTE_MS) as real && m as real <= x
    requires Ready(MemoryAfter(ids, tolerance, events), ids, m, x)
    ensures AllValid(more, ids)
    ensures var before, after := MemoryAfter(ids, tolerance, events), MemoryAfter(ids, tolerance, events + more);
            && Ready(after, ids, m, x + Length(plan))
            && BucketAt(after.buckets, m, ids) == PlayedAll(BucketAt(before.buckets, m, ids), ids, plan)
  {
    hide Ready, Played, BucketAt, MemoryAfter;
    if plan == [] {
      more := [];
      assert events + [] == events && x + Length(plan) == x;
    } else {
      var rest, last := plan[..|plan| - 1], plan[|plan| - 1];
      assert last in plan;
      forall s | s in rest ensures s.duration >= 0.0 {
        assert s in plan && SegmentOk(s, ids);
      }
      LengthNonNegative(rest);
      var most := PlayPlan(ids, tolerance, events, m, x, rest);
      var end := PlaySegment(ids, tolerance, events + most, m, x + Length(rest), last);
      more := most + end;
      AllValidConcat(most, end, ids);
      assert events + more == events + most + end;
      assert x + Length(rest) + last.duration == x + Length(plan);
    }
  }

  lemma {:induction false} PlayedAllFigures(b: Bucket, ids: seq<string>, plan: Plan, id: string)
    requires Shaped(b, ids) && id in ids
    ensures var p := PlayedAll(b, ids, plan);
            && Shaped(p, ids)
            && Entry(p.nodeCoverageMs, id) == Entry(b.nodeCoverageMs, id) + NodeTime(plan, id)
            && Entry(p.nodeWh, id) == Entry(b.nodeWh, id) + PlanEnergy(plan, id) / MS_PER_HOUR
            && p.fleetCoverageMs == b.fleetCoverageMs + FullTime(plan, ids)
            && p.fleetWattMs == b.fleetWattMs + FullEnergy(plan, ids)
            && p.outputTokens == b.outputTokens && p.coveredOutputTokens == b.coveredOutputTokens
  {
    if plan != [] {
      hide Played, TimeIn, EnergyIn, FullTimeIn, FullEnergyIn;
      var rest, last := plan[..|plan| - 1], plan[|plan| - 1];
      PlayedAllFigures(b, ids, rest, id);
      PlayedFigures(PlayedAll(b, ids, rest), ids, last);
      PlayedFleet(PlayedAll(b, ids, rest), ids, last);
    }
  }

  // --- Tokens -----------------------------------------------------------------------------------

  /** An empty bucket but for its tokens. */
  function TokenBucket(ids: seq<string>, output: int, covered: int): Bucket {
    EmptyBucket(ids).(outputTokens := output, coveredOutputTokens := covered)
  }

  /** Nothing was sampled or integrated yet. */
  predicate Unsampled(st: State, ids: seq<string>, m: int) {
    && Ready(st, ids, m, m as real) && st.highWater.None? && st.baselines == map[] && st.fleetBaseline.None?
    && (st.latestRecordAt.Some? ==> st.latestRecordAt.value >= m as real)
  }

  lemma GiveUncovered(ids: seq<string>, tolerance: real, m: int, output: int) returns (events: seq<Event>)
    requires Playable(ids, m) && 0 <= output <= MAX_SAFE_INTEGER
    ensures AllValid(events, ids)
    ensures var st := MemoryAfter(ids, tolerance, events);
            Unsampled(st, ids, m) && BucketAt(st.buckets, m, ids) == TokenBucket(ids, output, 0)
  {
    FreshUnsampled(ids, tolerance, m);
    events := [];
    if output > 0 {
      hide MemoryAfter, Recorded, Inv, Near;
      var zero, grown := Some(Counter(ids, 0)), Some(Counter(ids, output));
      var t := m as real;
      var first, second := Record(SnapshotsOf(ids, map[]), zero, t), Record(SnapshotsOf(ids, map[]), grown, t + 1.0);
      CountersValid(ids, output);
      events := [] + [first] + [second];
      RecordMore(ids, tolerance, [], map[], zero, t);
      RecordMore(ids, tolerance, [] + [first], map[], grown, t + 1.0);
      ZeroRecord(MemoryAfter(ids, tolerance, []), ids, map[], m, t, t);
      UncoveredRecord(MemoryAfter(ids, tolerance, [] + [first]), ids, m, output);
    }
  }

  lemma FreshUnsampled(ids: seq<string>, tolerance: real, m: int)
    ensures var st := MemoryAfter(ids, tolerance, []);
            && st.latestRecordAt.None? && BucketAt(st.buckets, m, ids) == TokenBucket(ids, 0, 0)
            && Unsampled(st, ids, m)
  {
    EmptyRun(ids, tolerance);
    FreshInv(ids);
  }

  lemma CountersValid(ids: seq<string>, total: int)
    requires ids != [] && 0 <= total <= MAX_SAFE_INTEGER
    ensures ValidTokens(Counter(ids, 0), ids) && ValidTokens(Counter(ids, total), ids)
  {
  }

  lemma SecondSampled(st: State, ids: seq<string>, m: int)
    requires Playable(ids, m) && Unsampled(st, ids, m)
    ensures var after := Recorded(st, ids, AllIdle(ids), Some(Counter(ids, 0)), m as real - 1000.0);
            SecondBefore(after, ids, m) && CountsFrom(after, ids, m as real - 1000.0) && after.buckets == st.buckets
  {
    hide Recorded, Inv, Near, Total;
    ZeroRecord(st, ids, AllIdle(ids), m, m as real, m as real - 1000.0);
    SamplesOfReadings(ids, AllIdle(ids), m as real - 1000.0);
  }

  lemma GiveCovered(ids: seq<string>, tolerance: real, events: seq<Event>, m: int, covered: int)
    returns (more: seq<Event>)
    requires Playable(ids, m) && Unsampled(MemoryAfter(ids, tolerance, events), ids, m)
    requires 0 < covered <= MAX_SAFE_INTEGER
    ensures AllValid(more, ids)
    ensures var before, after := MemoryAfter(ids, tolerance, events), MemoryAfter(ids, tolerance, events + more);
            && Ready(after, ids, m, m as real)
            && BucketAt(after.buckets, m, ids) == TokensAdded(BucketAt(before.buckets, m, ids), covered, true)
  {
    hide MemoryAfter, Recorded, Inv, Near, Unsampled, SecondBefore, CountsFrom, Ready;
    var zero, grown, idle := Some(Counter(ids, 0)), Some(Counter(ids, covered)), AllIdle(ids);
    var t := m as real;
    var first, second := Record(SnapshotsOf(ids, idle), zero, t - 1000.0), Record(SnapshotsOf(ids, idle), grown, t);
    CountersValid(ids, covered);
    more := [first, second];
    RecordMore(ids, tolerance, events, idle, zero, t - 1000.0);
    RecordMore(ids, tolerance, events + [first], idle, grown, t);
    SecondSampled(MemoryAfter(ids, tolerance, events), ids, m);
    CoveredRecord(MemoryAfter(ids, tolerance, events + [first]), ids, m, covered);
    assert events + more == events + [first] + [second];
  }

  /** Any counts of tokens that fit each other can be put into a minute before anything is integrated of it. */
  lemma GiveTokens(ids: seq<string>, tolerance: real, m: int, output: int, covered: int) returns (events: seq<Event>)
    requires Playable(ids, m) && 0 <= output <= MAX_SAFE_INTEGER && 0 <= covered <= MAX_SAFE_INTEGER
    requires covered <= output || output + covered > MAX_SAFE_INTEGER
    ensures AllValid(events, ids)
    ensures var st := MemoryAfter(ids, tolerance, events);
            Ready(st, ids, m, m as real) && BucketAt(st.buckets, m, ids) == TokenBucket(ids, output, covered)
  {
    hide MemoryAfter, Ready, BucketAt;
    var uncovered := if covered <= output then output - covered else output;
    events := GiveUncovered(ids, tolerance, m, uncovered);
    if covered > 0 {
      var more := GiveCovered(ids, tolerance, events, m, covered);
      AllValidConcat(events, more, ids);
      events := events + more;
    }
  }

  // --- What can be recorded -----------------------------------------------------------------------

  /** Some run leaves this bucket in memory. */
  ghost predicate Recordable(b: Bucket, ids: seq<string>, tolerance: real, m: int) {
    exists events :: AllValid(events, ids) && Holding(ids, tolerance, events, m, b)
  }

  ghost predicate Holding(ids: seq<string>, tolerance: real, events: seq<Event>, m: int, b: Bucket) {
    var st := MemoryAfter(ids, tolerance, events); m in st.buckets && st.buckets[m] == b
  }

  /** What the validator checks, without tolerance, and what it does not. */
  ghost predicate MeetsConditions(b: Bucket, ids: seq<string>) {
    BucketOk(b, ids) && CoverageWithin(b, ids, MINUTE) && Made(b, ids) && Apart(b, ids, MINUTE)
  }

  lemma FilledIs(b: Bucket, ids: seq<string>, plan: Plan)
    requires ids != [] && Shaped(b, ids) && Fills(plan, b, ids)
    ensures PlayedAll(TokenBucket(ids, b.outputTokens, b.coveredOutputTokens), ids, plan) == b
  {
    hide PlayedAll, NodeTime, PlanEnergy, FullTime, FullEnergy;
    var empty := TokenBucket(ids, b.outputTokens, b.coveredOutputTokens);
    var played := PlayedAll(empty, ids, plan);
    PlayedAllFigures(empty, ids, plan, ids[0]);
    forall id | id in ids
      ensures Entry(played.nodeWh, id) == Entry(b.nodeWh, id)
      ensures Entry(played.nodeCoverageMs, id) == Entry(b.nodeCoverageMs, id)
    {
      PlayedAllFigures(empty, ids, plan, id);
    }
    SameFigures(played, b, ids);
  }

  /** A bucket that meets the conditions is the result of a run: tokens first, then the plan for its minute. */
  lemma ConditionsSuffice(b: Bucket, ids: seq<string>, tolerance: real, m: int)
    requires Playable(ids, m) && MeetsConditions(b, ids)
    ensures Recordable(b, ids, tolerance, m)
  {
    var shares :| Splits(b, ids, shares);
    assert Plannable(b, ids, shares) && TokensOk(b) && TokensFit(b) && Shaped(b, ids) && NotEmpty(b, ids);
    hide *;
    var plan := PlanForMinute(b, ids, shares);
    PlanOfWholeMinute(ids, m, plan);
    TokensMeet(b);
    var events := GiveTokens(ids, tolerance, m, b.outputTokens, b.coveredOutputTokens);
    var more := PlayPlan(ids, tolerance, events, m, m as real, plan);
    PlayableFleet(ids, m);
    FilledIs(b, ids, plan);
    AllValidConcat(events, more, ids);
    BucketIsThere(MemoryAfter(ids, tolerance, events + more), ids, m, b);
    HeldIsRecordable(b, ids, tolerance, m, events + more);
  }

  lemma PlayableFleet(ids: seq<string>, m: int)
    requires Playable(ids, m)
    ensures ids != []
  {
  }

  lemma TokensMeet(b: Bucket)
    requires TokensOk(b) && TokensFit(b)
    ensures 0 <= b.outputTokens <= MAX_SAFE_INTEGER && 0 <= b.coveredOutputTokens <= MAX_SAFE_INTEGER
    ensures b.coveredOutputTokens <= b.outputTokens || b.outputTokens + b.coveredOutputTokens > MAX_SAFE_INTEGER
  {
  }

  lemma PlanOfWholeMinute(ids: seq<string>, m: int, plan: Plan)
    requires Length(plan) == MINUTE
    ensures m as real + Length(plan) <= (m + MINUTE_MS) as real
  {
  }

  lemma BucketIsThere(st: State, ids: seq<string>, m: int, b: Bucket)
    requires BucketAt(st.buckets, m, ids) == b && NotEmpty(b, ids)
    ensures m in st.buckets && st.buckets[m] == b
  {
  }

  lemma HeldIsRecordable(b: Bucket, ids: seq<string>, tolerance: real, m: int, events: seq<Event>)
    requires AllValid(events, ids)
    requires var st := MemoryAfter(ids, tolerance, events); m in st.buckets && st.buckets[m] == b
    ensures Recordable(b, ids, tolerance, m)
  {
    assert Holding(ids, tolerance, events, m, b);
  }

  lemma RecordedMeetsConditions(b: Bucket, ids: seq<string>, tolerance: real, m: int)
    requires Distinct(ids) && tolerance >= 0.0 && m >= 0 && Recordable(b, ids, tolerance, m)
    ensures MeetsConditions(b, ids)
  {
    hide Run, BucketOk, Made, Apart, Distinct;
    var events :| AllValid(events, ids) && Holding(ids, tolerance, events, m, b);
    BucketsOfRuns(ids, tolerance, events, m);
    var st := MemoryAfter(ids, tolerance, events);
    assert ElapsedTo(m, st.highWater) <= MINUTE;
    ApartLater(b, ids, ElapsedTo(m, st.highWater), MINUTE);
  }

  /**
    What `record` can produce, exactly: a bucket is what some run holds of a minute from zero on if and only if
    it passes the validator without tolerance, its fleet energy splits into its nodes', outside full-fleet time
    the nodes were apart, its tokens fit each other, and something is in it.
   */
  lemma RecordableIff(b: Bucket, ids: seq<string>, tolerance: real, m: int)
    requires Distinct(ids) && tolerance >= 0.0 && ValidStart(m) && m + MINUTE_MS <= MAX_SAFE_INTEGER
    ensures Recordable(b, ids, tolerance, m) <==>
              ValidContents(RawBucket(m, b, true), ids, 0.0) && Made(b, ids) && Apart(b, ids, MINUTE)
  {
    hide Recordable, Apart, Distinct, BucketOk, ValidContents, Splittable;
    ValidContentsIff(RawBucket(m, b, true), ids);
    if Recordable(b, ids, tolerance, m) {
      RecordedMeetsConditions(b, ids, tolerance, m);
    }
    if MeetsConditions(b, ids) {
      ConditionsSuffice(b, ids, tolerance, m);
    }
  }

  // --- What is accepted and cannot be recorded ----------------------------------------------------

  /** A bucket of a fleet of one. */
  function Solo(id: string, wh: real, coverage: real, fleetWattMs: real, fleetCoverage: real, output: int,
                covered: int): Bucket {
    Bucket(map[id := wh], map[id := coverage], fleetWattMs, fleetCoverage, output, covered)
  }

  predicate SoloOk(wh: real, coverage: real, fleetWattMs: real, fleetCoverage: real) {
    && 0.0 <= fleetCoverage <= coverage <= MINUTE
    && EnergyWithin(MIN_NODE_WATTS, MAX_NODE_WATTS, coverage, wh * MS_PER_HOUR)
    && EnergyWithin(MIN_NODE_WATTS, MAX_NODE_WATTS, fleetCoverage, fleetWattMs) && fleetWattMs <= wh * MS_PER_HOUR
  }

  lemma SoloAccepted(id: string, wh: real, coverage: real, fleetWattMs: real, fleetCoverage: real, output: int,
                     covered: int, m: int)
    requires SoloOk(wh, coverage, fleetWattMs, fleetCoverage) && ValidCount(output) && ValidCount(covered)
    ensures ValidContents(RawBucket(m, Solo(id, wh, coverage, fleetWattMs, fleetCoverage, output, covered), true),
                          [id], 0.0)
  {
    var b := Solo(id, wh, coverage, fleetWattMs, fleetCoverage, output, covered);
    TotalOfOne(id, b.nodeWh);
    assert BucketOk(b, [id]) && CoverageWithin(b, [id], MINUTE);
    hide ValidContents, BucketOk, CoverageWithin;
    ValidContentsIff(RawBucket(m, b, true), [id]);
  }

  /**
    None of the four further conditions is checked by the validator. It accepts, for a fleet of one node: a fully
    covered minute in which the fleet drew less than an eighth of what its only node drew; one in which the node is
    covered and the fleet is not; one with a covered token that was never counted; and an empty one. No run holds any of
    them.
   */
  lemma AcceptedButNotRecordable(id: string, tolerance: real, m: int)
    requires tolerance >= 0.0 && ValidStart(m) && m + MINUTE_MS <= MAX_SAFE_INTEGER
    ensures var unequal := Solo(id, 4.0, 60_000.0, 1_692_000.0, 60_000.0, 0, 0);
            var apart := Solo(id, 4.0, 60_000.0, 0.0, 0.0, 0, 0);
            var uncounted := Solo(id, 4.0, 60_000.0, 14_400_000.0, 60_000.0, 0, 1);
            var empty := Solo(id, 0.0, 0.0, 0.0, 0.0, 0, 0);
            forall b :: b in [unequal, apart, uncounted, empty] ==>
              ValidContents(RawBucket(m, b, true), [id], 0.0) && !Recordable(b, [id], tolerance, m)
  {
    SoloAccepted(id, 4.0, 60_000.0, 1_692_000.0, 60_000.0, 0, 0, m);
    SoloAccepted(id, 4.0, 60_000.0, 0.0, 0.0, 0, 0, m);
    SoloAccepted(id, 4.0, 60_000.0, 14_400_000.0, 60_000.0, 0, 1, m);
    SoloAccepted(id, 0.0, 0.0, 0.0, 0.0, 0, 0, m);
    hide Solo, ValidContents, Recordable;
    TooManyCovered(id);
    SoloRecordable(id, 4.0, 60_000.0, 1_692_000.0, 60_000.0, 0, 0, tolerance, m);
    SoloRecordable(id, 4.0, 60_000.0, 0.0, 0.0, 0, 0, tolerance, m);
    SoloRecordable(id, 4.0, 60_000.0, 14_400_000.0, 60_000.0, 0, 1, tolerance, m);
    SoloRecordable(id, 0.0, 0.0, 0.0, 0.0, 0, 0, tolerance, m);
  }

  lemma TooManyCovered(id: string)
    ensures !TokensFit(Solo(id, 4.0, 60_000.0, 14_400_000.0, 60_000.0, 0, 1))
  {
  }

  lemma SoloRecordable(id: string, wh: real, coverage: real, fleetWattMs: real, fleetCoverage: real, output: int,
                       covered: int,
                       tolerance: real, m: int)
    requires tolerance >= 0.0 && m >= 0
    ensures var b := Solo(id, wh, coverage, fleetWattMs, fleetCoverage, output, covered);
            Recordable(b, [id], tolerance, m) ==>
              fleetCoverage == coverage && fleetWattMs == wh * MS_PER_HOUR && TokensFit(b)
                && (coverage > 0.0 || output > 0)
  {
    hide BucketOk, Splittable, Apart, Recordable;
    var b := Solo(id, wh, coverage, fleetWattMs, fleetCoverage, output, covered);
    if Recordable(b, [id], tolerance, m) {
      RecordedMeetsConditions(b, [id], tolerance, m);
      FleetOfOne(b, id, MINUTE);
    }
  }
}
