/**
  How `record` plays a plan (server/energy/FleetEnergyTracker.js:418-500). A stretch of constant draw takes three
  calls: one without samples, which drops all baselines, and one at each end. Repeated for every segment, they put
  exactly its coverage and energy into a minute. Tokens are delivered before that, at the minute's first instant.
 */
module EnergyPlayback {
  import opened Options
  import opened EnergyArithmetic
  import opened EnergyBuckets
  import opened EnergyState
  import opened EnergyInvariant
  import opened EnergyFullFleet
  import opened EnergySchedule
  import opened EnergyTelemetry
  import opened FiniteSets

  /** Only the minute that is played and the one before it have buckets. */
  predicate Near(st: State, m: int) {
    forall k :: k in st.buckets ==> k == m || k == m - MINUTE_MS
  }

  /** A fleet and a minute of which every instant can be recorded. */
  predicate Playable(ids: seq<string>, m: int) {
    ids != [] && Distinct(ids) && m % MINUTE_MS == 0 && 0 <= m && m + MINUTE_MS <= MAX_SAFE_INTEGER
  }

  /** From the instant `x` on, nothing of the minute was integrated. */
  predicate Ready(st: State, ids: seq<string>, m: int, x: real) {
    && Inv(st, ids) && Near(st, m)
    && (st.highWater.Some? ==> st.highWater.value <= x)
    && m as real <= x <= (m + MINUTE_MS) as real
  }

  lemma PruneNothing(st: State, m: int, now: real)
    requires Near(st, m) && now <= (m + MINUTE_MS) as real
    ensures Pruned(st, now) == st
  {
    var starts, cutoff := st.buckets.Keys, AlignedWindowCutoff(now, RETENTION_MS);
    assert cutoff < m - MINUTE_MS;
    forall k | k in starts ensures k in Survivors(starts, cutoff) {
      SubsetSize(Newer(starts, k), {m, m - MINUTE_MS});
    }
    assert Survivors(starts, cutoff) == starts;
    assert Kept(st.buckets, starts) == st.buckets;
  }

  /** The nodes have no baselines, or none of them is sampled. */
  predicate Quiet(st: State, readings: map<string, real>) {
    readings == map[] || (st.baselines == map[] && st.fleetBaseline.None?)
  }

  lemma QuietIntegratesNothing(st: State, ids: seq<string>, readings: map<string, real>, t: real)
    requires ids != [] && Quiet(st, readings)
    ensures !Integrates(AfterRollback(st, t), ids, readings, t)
    ensures FleetInterval(AfterRollback(st, t), ids, readings, t).None?
  {
    assert ids[0] in ids;
  }

  lemma QuietCounted(st: State, ids: seq<string>, readings: map<string, real>, t: real)
    requires ids != [] && Quiet(st, readings)
    ensures var counted := Counted(st, ids, readings, None, t);
            && counted.buckets == st.buckets && counted.highWater == st.highWater && counted.latestRecordAt == Some(t)
            && counted.tokenCounter == st.tokenCounter
               && (counted.tokenNeedsRebase ==> AfterRollback(st, t).tokenNeedsRebase)
            && counted.baselines == (map id | id in ids && id in readings :: Sample(t, readings[id]))
            && counted.fleetBaseline == if FullFleet(ids, readings) then Some(Sample(t, Total(ids, readings))) else None
  {
    hide Total, CreditNodes, NodeInterval, FleetInterval;
    var start := AfterRollback(st, t);
    QuietIntegratesNothing(st, ids, readings, t);
    NothingCredited(start, ids, readings, t, |ids|);
  }

  /** A record that closes no interval. */
  lemma QuietRecord(st: State, ids: seq<string>, readings: map<string, real>, m: int, x: real, t: real)
    requires Playable(ids, m) && Ready(st, ids, m, x) && ValidReadings(readings, ids) && Quiet(st, readings)
    requires t <= (m + MINUTE_MS) as real && st.latestRecordAt != Some(t)
    ensures var after := Recorded(st, ids, readings, None, t);
            && Ready(after, ids, m, x)
            && after.buckets == st.buckets && after.highWater == st.highWater && after.latestRecordAt == Some(t)
            && after.baselines == (map id | id in ids && id in readings :: Sample(t, readings[id]))
            && after.fleetBaseline == if FullFleet(ids, readings) then Some(Sample(t, Total(ids, readings))) else None
  {
    QuietCounted(st, ids, readings, t);
    hide Counted, Inv, Quiet, Total, Pruned;
    PruneNothing(Counted(st, ids, readings, None, t), m, t);
    RecordKeepsInv(st, ids, readings, None, t);
  }

  function Baselines(readings: map<string, real>, x: real): map<string, Sample> {
    map id | id in readings :: Sample(x, readings[id])
  }

  /** All that a stretch of constant draw from `x` on needs: its nodes were sampled at `x`. */
  predicate Sampled(st: State, ids: seq<string>, readings: map<string, real>, x: real) {
    && st.latestRecordAt == Some(x) && st.baselines == Baselines(readings, x)
    && st.fleetBaseline == if FullFleet(ids, readings) then Some(Sample(x, Total(ids, readings))) else None
  }

  /** A bucket with one more segment in it. */
  function Played(b: Bucket, ids: seq<string>, s: Segment): Bucket {
    b.(nodeWh := map id | id in ids :: Entry(b.nodeWh, id) + EnergyIn(s, id) / MS_PER_HOUR,
       nodeCoverageMs := map id | id in ids :: Entry(b.nodeCoverageMs, id) + TimeIn(s, id),
       fleetWattMs := b.fleetWattMs + FullEnergyIn(s, ids),
       fleetCoverageMs := b.fleetCoverageMs + FullTimeIn(s, ids))
  }

  /** A stretch of constant draw inside one minute. */
  lemma FlatShare(watts: real, x: real, d: real, m: int)
    requires d > 0.0 && m as real <= x && x + d <= (m + MINUTE_MS) as real
    ensures var r := Ramp(Sample(x, watts), Sample(x + d, watts));
            TimeShare(Some(r), m) == d && EnergyShare(Some(r), m) == Drawn(watts, d)
  {
    var r := Ramp(Sample(x, watts), Sample(x + d, watts));
    assert Edge(m, x) == x && Edge(m, x + d) == x + d;
    FlatAt(r, x);
    FlatAt(r, x + d);
    FlatArea(r, x, x + d);
  }

  lemma FlatAt(r: Ramp, t: real)
    requires r.Valid() && r.previous.watts == r.current.watts
    ensures r.At(t) == r.previous.watts
  {
  }

  lemma FlatArea(r: Ramp, x: real, y: real)
    requires r.Valid() && r.At(x) == r.previous.watts && r.At(y) == r.previous.watts
    ensures r.Area(x, y) == Drawn(r.previous.watts, y - x)
  {
  }

  predicate Stretchable(st: State, ids: seq<string>, readings: map<string, real>, m: int, x: real, d: real) {
    && Playable(ids, m) && Ready(st, ids, m, x) && ValidReadings(readings, ids) && Sampled(st, ids, readings, x)
    && 0.0 < d <= MAX_GAP_MS && x + d <= (m + MINUTE_MS) as real
  }

  lemma FlatIntervals(st: State, ids: seq<string>, readings: map<string, real>, m: int, x: real, d: real)
    requires Stretchable(st, ids, readings, m, x, d)
    ensures forall id :: NodeInterval(st, readings, x + d, id)
                         == if id in readings then Some(Ramp(Sample(x, readings[id]), Sample(x + d, readings[id])))
                            else None
    ensures FleetInterval(st, ids, readings, x + d)
         == if FullFleet(ids, readings)
            then Some(Ramp(Sample(x, Total(ids, readings)), Sample(x + d, Total(ids, readings)))) else None
  {
    hide Inv, Near, Total;
  }

  lemma StretchedShares(st: State, ids: seq<string>, readings: map<string, real>, m: int, x: real, d: real, id: string)
    requires Stretchable(st, ids, readings, m, x, d)
    ensures var r, f := NodeInterval(st, readings, x + d, id), FleetInterval(st, ids, readings, x + d);
            var s := Segment(readings, d);
            && TimeShare(r, m) == TimeIn(s, id) && EnergyShare(r, m) == EnergyIn(s, id)
            && TimeShare(f, m) == FullTimeIn(s, ids) && EnergyShare(f, m) == FullEnergyIn(s, ids)
  {
    FlatIntervals(st, ids, readings, m, x, d);
    hide Inv, Near, NodeInterval, FleetInterval, Drawn;
    NoShare(m);
    if id in readings { FlatShare(readings[id], x, d, m); }
    if FullFleet(ids, readings) { FlatShare(Total(ids, readings), x, d, m); }
  }

  /** Two buckets of a fleet with the same figures are the same. */
  lemma SameFigures(b: Bucket, b': Bucket, ids: seq<string>)
    requires Shaped(b, ids) && Shaped(b', ids)
    requires forall id :: id in ids ==>
               Entry(b.nodeWh, id) == Entry(b'.nodeWh, id)
                 && Entry(b.nodeCoverageMs, id) == Entry(b'.nodeCoverageMs, id)
    requires b.fleetWattMs == b'.fleetWattMs && b.fleetCoverageMs == b'.fleetCoverageMs
    requires b.outputTokens == b'.outputTokens && b.coveredOutputTokens == b'.coveredOutputTokens
    ensures b == b'
  {
    assert b.nodeWh == b'.nodeWh;
    assert b.nodeCoverageMs == b'.nodeCoverageMs;
  }

  lemma PlayedFigures(b: Bucket, ids: seq<string>, s: Segment)
    ensures Shaped(Played(b, ids, s), ids)
    ensures forall id :: id in ids ==>
              && Entry(Played(b, ids, s).nodeWh, id) == Entry(b.nodeWh, id) + EnergyIn(s, id) / MS_PER_HOUR
              && Entry(Played(b, ids, s).nodeCoverageMs, id) == Entry(b.nodeCoverageMs, id) + TimeIn(s, id)
  {
  }

  lemma StretchedNode(st: State, ids: seq<string>, readings: map<string, real>, m: int, x: real, d: real, id: string)
    requires Stretchable(st, ids, readings, m, x, d) && id in ids
    ensures var b', p := BucketAfter(st, ids, readings, x + d, m),
            Played(BucketBefore(st, ids, m), ids, Segment(readings, d));
            Entry(b'.nodeWh, id) == Entry(p.nodeWh, id) && Entry(b'.nodeCoverageMs, id) == Entry(p.nodeCoverageMs, id)
  {
    hide *;
    StretchableCanRecord(st, ids, readings, m, x, d);
    StretchedShares(st, ids, readings, m, x, d, id);
    IntegrationView(st, ids, readings, x + d, m);
    PlayedFigures(BucketBefore(st, ids, m), ids, Segment(readings, d));
  }

  lemma StretchedFleet(st: State, ids: seq<string>, readings: map<string, real>, m: int, x: real, d: real)
    requires Stretchable(st, ids, readings, m, x, d)
    ensures var b', p := BucketAfter(st, ids, readings, x + d, m),
            Played(BucketBefore(st, ids, m), ids, Segment(readings, d));
            && Shaped(b', ids) && Shaped(p, ids)
            && b'.fleetWattMs == p.fleetWattMs && b'.fleetCoverageMs == p.fleetCoverageMs
            && b'.outputTokens == p.outputTokens && b'.coveredOutputTokens == p.coveredOutputTokens
  {
    hide *;
    StretchableCanRecord(st, ids, readings, m, x, d);
    StretchedShares(st, ids, readings, m, x, d, "");
    IntegrationView(st, ids, readings, x + d, m);
    PlayedFigures(BucketBefore(st, ids, m), ids, Segment(readings, d));
    PlayedFleet(BucketBefore(st, ids, m), ids, Segment(readings, d));
  }

  lemma StretchedBucket(st: State, ids: seq<string>, readings: map<string, real>, m: int, x: real, d: real)
    requires Stretchable(st, ids, readings, m, x, d)
    ensures BucketAfter(st, ids, readings, x + d, m) == Played(BucketBefore(st, ids, m), ids, Segment(readings, d))
  {
    hide *;
    var b', p := BucketAfter(st, ids, readings, x + d, m), Played(BucketBefore(st, ids, m), ids, Segment(readings, d));
    StretchedFleet(st, ids, readings, m, x, d);
    forall id | id in ids
      ensures Entry(b'.nodeWh, id) == Entry(p.nodeWh, id) && Entry(b'.nodeCoverageMs, id) == Entry(p.nodeCoverageMs, id)
    {
      StretchedNode(st, ids, readings, m, x, d, id);
    }
    SameFigures(b', p, ids);
  }

  lemma PlayedFleet(b: Bucket, ids: seq<string>, s: Segment)
    ensures Played(b, ids, s).fleetWattMs == b.fleetWattMs + FullEnergyIn(s, ids)
    ensures Played(b, ids, s).fleetCoverageMs == b.fleetCoverageMs + FullTimeIn(s, ids)
    ensures Played(b, ids, s).outputTokens == b.outputTokens
    ensures Played(b, ids, s).coveredOutputTokens == b.coveredOutputTokens
  {
  }

  lemma StretchableCanRecord(st: State, ids: seq<string>, readings: map<string, real>, m: int, x: real, d: real)
    requires Stretchable(st, ids, readings, m, x, d)
    ensures CanRecord(st, ids, readings) && m % MINUTE_MS == 0
  {
    hide Inv, ValidReadings, Near;
  }

  lemma StretchedNear(st: State, ids: seq<string>, readings: map<string, real>, m: int, x: real, d: real)
    requires Stretchable(st, ids, readings, m, x, d)
    ensures Near(st.(buckets := CreditFleet(st, ids, readings, x + d)), m)
  {
    hide Inv, NodeInterval, FleetInterval, CreditFleet, Minutes;
    FlatIntervals(st, ids, readings, m, x, d);
    var credited := CreditFleet(st, ids, readings, x + d);
    forall k | k in credited ensures k == m || k == m - MINUTE_MS {
      if k !in st.buckets {
        var id := CreditTouches(st, ids, readings, x + d, k);
        InsideOneMinute(m, x, x + d, k);
      }
    }
  }

  lemma InsideOneMinute(m: int, from: real, to: real, k: int)
    requires m % MINUTE_MS == 0 && m as real <= from && to <= (m + MINUTE_MS) as real && k in Minutes(from, to)
    ensures k == m
  {
    assert from < to;
    SameMinute(m, MinuteOf(from), from);
    hide Minutes, MinuteOf;
    OneMinute(from, to);
  }

  lemma StretchCounted(st: State, ids: seq<string>, readings: map<string, real>, m: int, x: real, d: real)
    requires Stretchable(st, ids, readings, m, x, d)
    ensures var counted := Counted(st, ids, readings, None, x + d);
            && counted.buckets == CreditFleet(st, ids, readings, x + d)
            && (counted.highWater.Some? ==> counted.highWater.value <= x + d)
    ensures Recorded(st, ids, readings, None, x + d) == Pruned(Counted(st, ids, readings, None, x + d), x + d)
    ensures x + d <= (m + MINUTE_MS) as real
  {
    hide Inv, CreditFleet, Integrates, Near, Pruned;
    assert AfterRollback(st, x + d) == st;
  }

  lemma StretchEffect(st: State, ids: seq<string>, readings: map<string, real>, m: int, x: real, d: real)
    requires Stretchable(st, ids, readings, m, x, d)
    ensures var after := Recorded(st, ids, readings, None, x + d);
            && after.buckets == CreditFleet(st, ids, readings, x + d)
            && (after.highWater.Some? ==> after.highWater.value <= x + d)
            && Near(after, m)
  {
    StretchCounted(st, ids, readings, m, x, d);
    StretchedNear(st, ids, readings, m, x, d);
    hide Stretchable, CreditFleet, Counted, Pruned, Recorded;
    PruneNothing(Counted(st, ids, readings, None, x + d), m, x + d);
  }

  lemma StretchKeepsInv(st: State, ids: seq<string>, readings: map<string, real>, m: int, x: real, d: real)
    requires Stretchable(st, ids, readings, m, x, d)
    ensures Inv(Recorded(st, ids, readings, None, x + d), ids)
    ensures m as real <= x + d <= (m + MINUTE_MS) as real
  {
    hide Inv, Near;
    StretchableCanRecord(st, ids, readings, m, x, d);
    hide Recorded, CanRecord, Sampled, ValidReadings;
    RecordKeepsInv(st, ids, readings, None, x + d);
  }

  /** The record at the end of a stretch of constant draw plays it. */
  lemma StretchRecord(st: State, ids: seq<string>, readings: map<string, real>, m: int, x: real, d: real)
    requires Stretchable(st, ids, readings, m, x, d)
    ensures var after := Recorded(st, ids, readings, None, x + d);
            && Ready(after, ids, m, x + d)
            && BucketAt(after.buckets, m, ids) == Played(BucketAt(st.buckets, m, ids), ids, Segment(readings, d))
  {
    StretchedBucket(st, ids, readings, m, x, d);
    StretchEffect(st, ids, readings, m, x, d);
    StretchKeepsInv(st, ids, readings, m, x, d);
    hide Stretchable, CreditFleet, Played, BucketAt, Recorded, Inv, Near;
  }

  // --- Tokens -----------------------------------------------------------------------------------

  function Counter(ids: seq<string>, total: int): TokenReading
    requires ids != []
  {
    TokenReading(ids[0], 0, total)
  }

  /** The counter of the fleet's first node stood at zero at `t`. */
  predicate CountsFrom(st: State, ids: seq<string>, t: real)
    requires ids != []
  {
    st.tokenCounter == Some(TokenObservation(Counter(ids, 0), t)) && !st.tokenNeedsRebase
      && st.latestRecordAt == Some(t)
  }

  lemma CountedTokens(st: State, ids: seq<string>, readings: map<string, real>, reading: TokenReading, t: real)
    ensures Counted(st, ids, readings, Some(reading), t)
         == TokensRecorded(Counted(st, ids, readings, None, t), ids, Some(reading), t,
                           FleetInterval(AfterRollback(st, t), ids, readings, t).Some?)
  {
    hide FleetInterval, CreditFleet, Integrates;
  }

  /** A record that takes the counter's zero as its base. */
  lemma ZeroRecord(st: State, ids: seq<string>, readings: map<string, real>, m: int, x: real, t: real)
    requires Playable(ids, m) && Ready(st, ids, m, x) && ValidReadings(readings, ids) && Quiet(st, readings)
    requires t <= (m + MINUTE_MS) as real && st.latestRecordAt != Some(t)
    ensures var after := Recorded(st, ids, readings, Some(Counter(ids, 0)), t);
            && Ready(after, ids, m, x) && CountsFrom(after, ids, t)
            && after.buckets == st.buckets && after.highWater == st.highWater
            && after.baselines == (map id | id in ids && id in readings :: Sample(t, readings[id]))
            && after.fleetBaseline == if FullFleet(ids, readings) then Some(Sample(t, Total(ids, readings))) else None
  {
    var zero := Counter(ids, 0);
    QuietCounted(st, ids, readings, t);
    CountedTokens(st, ids, readings, zero, t);
    CounterNonNegative(st, ids);
    assert ValidTokens(zero, ids);
    RecordKeepsInv(st, ids, readings, Some(zero), t);
    hide Counted, Inv, Quiet, Total, Pruned;
    PruneNothing(Counted(st, ids, readings, Some(zero), t), m, t);
  }

  lemma CounterNonNegative(st: State, ids: seq<string>)
    requires Inv(st, ids)
    ensures st.tokenCounter.Some? ==> st.tokenCounter.value.source.totalOutputTokens >= 0
  {
    hide BucketsOk, HighWaterBacked, BaselinesOk;
  }

  lemma UncoveredCounted(st: State, ids: seq<string>, m: int, delta: int)
    requires Playable(ids, m) && Inv(st, ids) && CountsFrom(st, ids, m as real) && 0 < delta <= MAX_SAFE_INTEGER
    ensures var counted := Counted(st, ids, map[], Some(Counter(ids, delta)), m as real + 1.0);
            && counted.highWater == st.highWater && counted.latestRecordAt == Some(m as real + 1.0)
            && counted.baselines == map[] && counted.fleetBaseline.None?
            && counted.buckets == st.buckets[m := TokensAdded(BucketAt(st.buckets, m, ids), delta, false)]
  {
    var t, reading := m as real + 1.0, Counter(ids, delta);
    SameMinute(m, MinuteOf(t), t);
    assert ids[0] in ids;
    QuietCounted(st, ids, map[], t);
    QuietIntegratesNothing(st, ids, map[], t);
    CountedTokens(st, ids, map[], reading, t);
    hide Counted, Inv, FleetInterval, TokensAdded, Distinct, Total, MinuteOf;
  }

  /** A record without samples, one millisecond later, counts what the counter grew as uncovered tokens. */
  lemma UncoveredRecord(st: State, ids: seq<string>, m: int, delta: int)
    requires Playable(ids, m) && Ready(st, ids, m, m as real) && CountsFrom(st, ids, m as real)
    requires 0 < delta <= MAX_SAFE_INTEGER
    ensures var after := Recorded(st, ids, map[], Some(Counter(ids, delta)), m as real + 1.0);
            && Ready(after, ids, m, m as real) && after.highWater == st.highWater
               && after.latestRecordAt == Some(m as real + 1.0)
            && after.baselines == map[] && after.fleetBaseline.None?
            && after.buckets == st.buckets[m := TokensAdded(BucketAt(st.buckets, m, ids), delta, false)]
  {
    var t, reading := m as real + 1.0, Counter(ids, delta);
    UncoveredCounted(st, ids, m, delta);
    assert ValidTokens(reading, ids) && ValidReadings(map[], ids);
    hide Counted, Inv, Pruned, TokensAdded, Distinct, BucketAt, ValidReadings;
    RecordKeepsInv(st, ids, map[], Some(reading), t);
    PruneNothing(Counted(st, ids, map[], Some(reading), t), m, t);
  }

  /** The second before a minute, in which the whole fleet idled and nothing was integrated yet. */
  predicate SecondBefore(st: State, ids: seq<string>, m: int) {
    && Playable(ids, m) && Ready(st, ids, m, m as real) && st.highWater.None?
    && Sampled(st, ids, AllIdle(ids), m as real - 1000.0)
  }

  lemma SecondBeforeFacts(st: State, ids: seq<string>, m: int)
    requires SecondBefore(st, ids, m)
    ensures m % MINUTE_MS == 0 && Near(st, m) && CanRecord(st, ids, AllIdle(ids))
    ensures FullFleet(ids, AllIdle(ids)) && AfterRollback(st, m as real) == st
  {
    hide Inv, Total, Near;
  }

  lemma IdleIntervals(st: State, ids: seq<string>, m: int)
    requires SecondBefore(st, ids, m)
    ensures var s, t, idle := m as real - 1000.0, m as real, AllIdle(ids);
            && (forall id :: NodeInterval(st, idle, t, id)
                             == if id in ids then Some(Ramp(Sample(s, MIN_NODE_WATTS), Sample(t, MIN_NODE_WATTS)))
                                else None)
            && FleetInterval(st, ids, idle, t) == Some(Ramp(Sample(s, Total(ids, idle)), Sample(t, Total(ids, idle))))
  {
    hide Inv, Total, Near;
  }

  lemma NothingInside(watts: real, m: int)
    ensures var r := Ramp(Sample(m as real - 1000.0, watts), Sample(m as real, watts));
            TimeShare(Some(r), m) == 0.0 && EnergyShare(Some(r), m) == 0.0
  {
    var r := Ramp(Sample(m as real - 1000.0, watts), Sample(m as real, watts));
    assert Edge(m, m as real - 1000.0) == m as real == Edge(m, m as real);
    NoArea(r, m as real);
  }

  lemma IdleShares(st: State, ids: seq<string>, m: int, id: string)
    requires SecondBefore(st, ids, m) && id in ids
    ensures var r, f := NodeInterval(st, AllIdle(ids), m as real, id), FleetInterval(st, ids, AllIdle(ids), m as real);
            && TimeShare(r, m) == 0.0 && EnergyShare(r, m) == 0.0
            && TimeShare(f, m) == 0.0 && EnergyShare(f, m) == 0.0
  {
    IdleIntervals(st, ids, m);
    hide SecondBefore, NodeInterval, FleetInterval, Total, TimeShare, EnergyShare;
    NothingInside(MIN_NODE_WATTS, m);
    NothingInside(Total(ids, AllIdle(ids)), m);
  }

  lemma AddedNothing(a: real, b: real, share: real)
    requires share == 0.0 && b == a + share / MS_PER_HOUR
    ensures b == a
  {
  }

  lemma IdleFleetFigures(st: State, ids: seq<string>, m: int)
    requires SecondBefore(st, ids, m)
    ensures Shaped(BucketBefore(st, ids, m), ids) && Shaped(BucketAfter(st, ids, AllIdle(ids), m as real, m), ids)
    ensures var b, b' := BucketBefore(st, ids, m), BucketAfter(st, ids, AllIdle(ids), m as real, m);
            && b'.fleetWattMs == b.fleetWattMs && b'.fleetCoverageMs == b.fleetCoverageMs
            && b'.outputTokens == b.outputTokens && b'.coveredOutputTokens == b.coveredOutputTokens
  {
    SecondBeforeFacts(st, ids, m);
    assert ids != [] && ids[0] in ids;
    hide *;
    IdleShares(st, ids, m, ids[0]);
    IntegrationView(st, ids, AllIdle(ids), m as real, m);
  }

  lemma IdleNodeFigures(st: State, ids: seq<string>, m: int, id: string)
    requires SecondBefore(st, ids, m) && id in ids
    ensures Entry(BucketAfter(st, ids, AllIdle(ids), m as real, m).nodeWh, id)
            == Entry(BucketBefore(st, ids, m).nodeWh, id)
    ensures Entry(BucketAfter(st, ids, AllIdle(ids), m as real, m).nodeCoverageMs, id)
            == Entry(BucketBefore(st, ids, m).nodeCoverageMs, id)
  {
    SecondBeforeFacts(st, ids, m);
    hide *;
    IdleShares(st, ids, m, id);
    IntegrationView(st, ids, AllIdle(ids), m as real, m);
    var b, b' := BucketBefore(st, ids, m), BucketAfter(st, ids, AllIdle(ids), m as real, m);
    AddedNothing(Entry(b.nodeWh, id), Entry(b'.nodeWh, id),
                 EnergyShare(NodeInterval(st, AllIdle(ids), m as real, id), m));
  }

  /** What is integrated of the second before a minute leaves the minute alone. */
  lemma IdleBucket(st: State, ids: seq<string>, m: int)
    requires SecondBefore(st, ids, m)
    ensures BucketAfter(st, ids, AllIdle(ids), m as real, m) == BucketBefore(st, ids, m)
  {
    hide *;
    var b, b' := BucketBefore(st, ids, m), BucketAfter(st, ids, AllIdle(ids), m as real, m);
    IdleFleetFigures(st, ids, m);
    forall id | id in ids
      ensures Entry(b'.nodeWh, id) == Entry(b.nodeWh, id) && Entry(b'.nodeCoverageMs, id) == Entry(b.nodeCoverageMs, id)
    {
      IdleNodeFigures(st, ids, m, id);
    }
    SameFigures(b', b, ids);
  }

  lemma IdleTouches(st: State, ids: seq<string>, m: int, k: int)
    requires SecondBefore(st, ids, m) && k in CreditFleet(st, ids, AllIdle(ids), m as real) && k !in st.buckets
    ensures k == m - MINUTE_MS
  {
    SecondBeforeFacts(st, ids, m);
    IdleIntervals(st, ids, m);
    hide *;
    var id := CreditTouches(st, ids, AllIdle(ids), m as real, k);
    assert k in Minutes(m as real - 1000.0, m as real);
    InLastSecond(m, k);
  }

  lemma InLastSecond(m: int, k: int)
    requires m % MINUTE_MS == 0 && k in Minutes(m as real - 1000.0, m as real)
    ensures k == m - MINUTE_MS
  {
    hide Minutes, MinuteOf;
    var n := m - MINUTE_MS;
    assert n % MINUTE_MS == 0;
    InsideOneMinute(n, m as real - 1000.0, m as real, k);
  }

  lemma IdleNear(st: State, ids: seq<string>, m: int)
    requires SecondBefore(st, ids, m)
    ensures Near(st.(buckets := CreditFleet(st, ids, AllIdle(ids), m as real)), m)
  {
    SecondBeforeFacts(st, ids, m);
    hide SecondBefore, CanRecord, CreditFleet, FullFleet, AfterRollback;
    var credited := CreditFleet(st, ids, AllIdle(ids), m as real);
    forall k | k in credited ensures k == m || k == m - MINUTE_MS {
      if k !in st.buckets { IdleTouches(st, ids, m, k); }
    }
  }

  /** The record at the start of the minute closes that second, so what the counter grew counts as covered. */
  lemma CoveredRecord(st: State, ids: seq<string>, m: int, delta: int)
    requires SecondBefore(st, ids, m) && CountsFrom(st, ids, m as real - 1000.0) && 0 < delta <= MAX_SAFE_INTEGER
    ensures var after := Recorded(st, ids, AllIdle(ids), Some(Counter(ids, delta)), m as real);
            && Ready(after, ids, m, m as real)
            && BucketAt(after.buckets, m, ids) == TokensAdded(BucketAt(st.buckets, m, ids), delta, true)
  {
    var t, reading := m as real, Counter(ids, delta);
    SecondBeforeFacts(st, ids, m);
    IdleBucket(st, ids, m);
    IdleNear(st, ids, m);
    CoveredCounted(st, ids, m, delta);
    assert ValidTokens(reading, ids) && t <= MAX_SAFE_INTEGER as real && st.latestRecordAt != Some(t);
    hide Counted, Inv, Pruned, TokensAdded, CreditFleet, CanRecord, SecondBefore, FullFleet, AfterRollback, Distinct;
    RecordKeepsInv(st, ids, AllIdle(ids), Some(reading), t);
    PruneNothing(Counted(st, ids, AllIdle(ids), Some(reading), t), m, t);
  }

  lemma CoveredCounted(st: State, ids: seq<string>, m: int, delta: int)
    requires SecondBefore(st, ids, m) && CountsFrom(st, ids, m as real - 1000.0) && 0 < delta <= MAX_SAFE_INTEGER
    ensures var counted := Counted(st, ids, AllIdle(ids), Some(Counter(ids, delta)), m as real);
            var credited := CreditFleet(st, ids, AllIdle(ids), m as real);
            && counted.buckets == credited[m := TokensAdded(BucketAt(credited, m, ids), delta, true)]
            && (counted.highWater.Some? ==> counted.highWater.value <= m as real)
  {
    var t := m as real;
    SecondBeforeFacts(st, ids, m);
    IdleIntervals(st, ids, m);
    CountedTokens(st, ids, AllIdle(ids), Counter(ids, delta), t);
    CountedIdle(st, ids, m);
    SameMinute(m, MinuteOf(t), t);
    hide SecondBefore, FleetInterval, NodeInterval, TokensAdded, CreditFleet, CanRecord, Counted, AfterRollback,
         FullFleet, MinuteOf;
  }

  lemma CountedIdle(st: State, ids: seq<string>, m: int)
    requires SecondBefore(st, ids, m)
    ensures var counted := Counted(st, ids, AllIdle(ids), None, m as real);
            && counted.buckets == CreditFleet(st, ids, AllIdle(ids), m as real)
            && (counted.highWater.Some? ==> counted.highWater.value <= m as real)
            && counted.tokenCounter == st.tokenCounter && counted.tokenNeedsRebase == st.tokenNeedsRebase
  {
    SecondBeforeFacts(st, ids, m);
    hide Inv, FleetInterval, NodeInterval, CreditFleet, CanRecord, Total, Near, Integrates, AfterRollback, FullFleet,
         Playable;
  }
}
