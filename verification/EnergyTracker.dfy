/**
  The class of server/energy/FleetEnergyTracker.js, with its fields updated in place, its loops, and the
  insertion order that pruning relies on. Every method is proved against the state functions of
  EnergyState, EnergyPersistence and EnergyWindows, so the theorems of EnergyRuns speak about it.
 */
module EnergyTracker {
  import opened Options
  import opened EnergyArithmetic
  import opened EnergyBuckets
  import opened EnergyState
  import opened EnergyPersistence
  import opened EnergySteps
  import opened EnergyInvariant
  import opened EnergyLoading
  import opened EnergyWindows
  import opened FiniteSets
  import opened RealArithmetic

  class FleetEnergyTracker {
    const nodeIds: seq<string>
    var buckets: Buckets
    /** Keys of `buckets` in the order in which a JavaScript Map would list them. */
    var bucketOrder: seq<int>
    var bucketsOrdered: bool
    var latestBucketStart: Option<int>
    var nodeBaselines: map<string, Sample>
    var fleetBaseline: Option<Sample>
    var integrationHighWaterMs: Option<real>
    var tokenCounter: Option<TokenObservation>
    var tokenNeedsRebase: bool
    var latestRecordAt: Option<real>
    var dirty: bool

    function Abs(): State
      reads this
    {
      State(buckets, nodeBaselines, fleetBaseline, integrationHighWaterMs, tokenCounter, tokenNeedsRebase,
            latestRecordAt, dirty)
    }

    ghost predicate Valid()
      reads this
    {
      && Distinct(nodeIds)
      && WellFormed(buckets, nodeIds)
      && OrderOk(bucketOrder, buckets.Keys, bucketsOrdered, latestBucketStart)
      && nodeBaselines.Keys <= set id | id in nodeIds
    }

    constructor (ids: seq<string>)
      ensures Valid() && nodeIds == NormalizeNodeIds(ids) && Abs() == FRESH
    {
      nodeIds := NormalizeNodeIds(ids);
      buckets, bucketOrder, bucketsOrdered, latestBucketStart := map[], [], true, None;
      nodeBaselines, fleetBaseline, integrationHighWaterMs := map[], None, None;
      tokenCounter, tokenNeedsRebase, latestRecordAt, dirty := None, false, None, false;
    }

    /** The bucket of a minute, created empty if it is not there. */
    method Bucket(minuteStartMs: int) returns (bucket: Bucket)
      requires Valid() && minuteStartMs % MINUTE_MS == 0
      modifies this`buckets, this`bucketOrder, this`bucketsOrdered, this`latestBucketStart
      ensures Valid()
      ensures bucket == BucketAt(old(buckets), minuteStartMs, nodeIds)
      ensures buckets == old(buckets)[minuteStartMs := bucket]
    {
      hide Distinct, Increasing, NoRepeats, Elements;
      if minuteStartMs in buckets {
        bucket := buckets[minuteStartMs];
        assert buckets == buckets[minuteStartMs := bucket];
      } else {
        bucket := EmptyBucket(nodeIds);
        AppendStart(bucketOrder, buckets.Keys, bucketsOrdered, latestBucketStart, minuteStartMs);
        assert buckets[minuteStartMs := bucket].Keys == buckets.Keys + {minuteStartMs};
        buckets := buckets[minuteStartMs := bucket];
        bucketOrder := bucketOrder + [minuteStartMs];
        if latestBucketStart.Some? && minuteStartMs < latestBucketStart.value {
          bucketsOrdered := false;
        }
        latestBucketStart := Some(if latestBucketStart.Some? && latestBucketStart.value > minuteStartMs
                                  then latestBucketStart.value else minuteStartMs);
      }
    }

    /** Cuts an interval at minute boundaries and adds each segment to its bucket. */
    method SplitInterval(startMs: real, endMs: real, startWatts: real, endWatts: real, meter: Meter)
      requires Valid() && Tracks(nodeIds, meter) && startMs < endMs
      modifies this`buckets, this`bucketOrder, this`bucketsOrdered, this`latestBucketStart
      ensures Valid()
      ensures buckets == Credited(old(buckets), nodeIds, meter,
                                  Ramp(Sample(startMs, startWatts), Sample(endMs, endWatts)), startMs, endMs)
    {
      hide Credited, WellFormed;
      ghost var r := Ramp(Sample(startMs, startWatts), Sample(endMs, endWatts));
      ghost var start := buckets;
      var segmentStart := startMs;
      CreditedNothing(buckets, nodeIds, meter, r, startMs);
      ghost var left := MinutesLeft(startMs, endMs);
      while segmentStart < endMs
        invariant Valid() && startMs <= segmentStart <= endMs
        invariant buckets == Credited(start, nodeIds, meter, r, startMs, segmentStart)
        invariant left == MinutesLeft(segmentStart, endMs)
        decreases left
      {
        var segmentEnd := Min(endMs, MinuteOf(segmentStart) as real + MINUTE);
        LessLeft(segmentStart, segmentEnd, endMs);
        left := MinutesLeft(segmentEnd, endMs);
        CreditSegment(startMs, endMs, startWatts, endWatts, segmentStart, segmentEnd, meter, start, r);
        segmentStart := segmentEnd;
      }
    }

    /**
      One turn of the loop: the segment [segmentStart, segmentEnd) of a line that was credited up to `segmentStart`.
     */
    method CreditSegment(startMs: real, endMs: real, startWatts: real, endWatts: real, segmentStart: real,
                         segmentEnd: real,
                         meter: Meter, ghost start: Buckets, ghost r: Ramp)
      requires Valid() && WellFormed(start, nodeIds) && Tracks(nodeIds, meter)
      requires startMs < endMs && r == Ramp(Sample(startMs, startWatts), Sample(endMs, endWatts))
      requires startMs <= segmentStart < segmentEnd <= MinuteOf(segmentStart) as real + MINUTE
      requires buckets == Credited(start, nodeIds, meter, r, startMs, segmentStart)
      modifies this`buckets, this`bucketOrder, this`bucketsOrdered, this`latestBucketStart
      ensures Valid()
      ensures buckets == Credited(start, nodeIds, meter, r, startMs, segmentEnd)
    {
      ghost var before := buckets;
      var durationMs, averageWatts, wattMs := Segment(startMs, endMs, startWatts, endWatts, segmentStart, segmentEnd);
      AddSegment(MinuteOf(segmentStart), durationMs, averageWatts, meter, wattMs);
      SegmentStep(start, nodeIds, meter, r, startMs, segmentStart, segmentEnd, durationMs, wattMs, before, buckets);
    }

    /**
      Length and average watts of the part [from, to) of the line between two samples; `wattMs` is the energy under
      it.
     */
    static method Segment(startMs: real, endMs: real, startWatts: real, endWatts: real, from: real, to: real)
      returns (durationMs: real, averageWatts: real, ghost wattMs: real)
      requires startMs < endMs
      ensures durationMs == to - from
      ensures wattMs == averageWatts * durationMs
      ensures wattMs == Ramp(Sample(startMs, startWatts), Sample(endMs, endWatts)).Area(from, to)
    {
      var totalMs := endMs - startMs;
      var startFraction := (from - startMs) / totalMs;
      var endFraction := (to - startMs) / totalMs;
      var segmentStartWatts := startWatts + (endWatts - startWatts) * startFraction;
      var segmentEndWatts := startWatts + (endWatts - startWatts) * endFraction;
      durationMs := to - from;
      averageWatts := (segmentStartWatts + segmentEndWatts) / 2.0;
      wattMs := averageWatts * durationMs;
    }

    /** What the callbacks of the source do with one segment. */
    method AddSegment(minuteStartMs: int, durationMs: real, averageWatts: real, meter: Meter, ghost wattMs: real)
      requires Valid() && Tracks(nodeIds, meter) && minuteStartMs % MINUTE_MS == 0
      requires wattMs == averageWatts * durationMs
      modifies this`buckets, this`bucketOrder, this`bucketsOrdered, this`latestBucketStart
      ensures Valid()
      ensures buckets == old(buckets)[minuteStartMs :=
                                      Add(BucketAt(old(buckets), minuteStartMs, nodeIds), meter, durationMs, wattMs)]
    {
      var bucket := Bucket(minuteStartMs);
      AddShaped(bucket, nodeIds, meter, durationMs, wattMs);
      Put(minuteStartMs, Add(bucket, meter, durationMs, averageWatts * durationMs));
    }

    /** Writes the fields of a bucket that is already there. */
    method Put(minuteStartMs: int, bucket: Bucket)
      requires Valid() && minuteStartMs in buckets && Shaped(bucket, nodeIds)
      modifies this`buckets
      ensures Valid() && buckets == old(buckets)[minuteStartMs := bucket]
    {
      Replaced(buckets, nodeIds, minuteStartMs, bucket);
      buckets := buckets[minuteStartMs := bucket];
    }

    method IntegrateNode(id: string, previous: Sample, current: Sample)
      requires Valid() && id in nodeIds && previous.atMs < current.atMs
      modifies this`buckets, this`bucketOrder, this`bucketsOrdered, this`latestBucketStart
      ensures Valid()
      ensures buckets == Credited(old(buckets), nodeIds, Node(id), Ramp(previous, current), previous.atMs, current.atMs)
    {
      SplitInterval(previous.atMs, current.atMs, previous.watts, current.watts, Node(id));
    }

    method IntegrateFleet(previous: Sample, current: Sample)
      requires Valid() && previous.atMs < current.atMs
      modifies this`buckets, this`bucketOrder, this`bucketsOrdered, this`latestBucketStart
      ensures Valid()
      ensures buckets == Credited(old(buckets), nodeIds, Fleet, Ramp(previous, current), previous.atMs, current.atMs)
    {
      SplitInterval(previous.atMs, current.atMs, previous.watts, current.watts, Fleet);
    }

    /** The last snapshot of each tracked node in a batch. */
    method LatestById(snapshots: seq<Snapshot>) returns (byId: map<string, Snapshot>)
      ensures forall id :: id in byId <==> id in nodeIds && LastSnapshot(snapshots, id).Some?
      ensures forall id :: id in byId ==> byId[id] == LastSnapshot(snapshots, id).value
    {
      byId := map[];
      for i := 0 to |snapshots|
        invariant forall id :: id in byId <==> id in nodeIds && LastSnapshot(snapshots[..i], id).Some?
        invariant forall id :: id in byId ==> byId[id] == LastSnapshot(snapshots[..i], id).value
      {
        assert snapshots[..i + 1][..i] == snapshots[..i];
        if snapshots[i].id in nodeIds {
          byId := byId[snapshots[i].id := snapshots[i]];
        }
      }
      assert snapshots[..|snapshots|] == snapshots;
    }

    /** One node's turn in `record`: closes the interval from its baseline, if there is one, and moves the baseline. */
    method RecordNode(id: string, watts: Option<real>, timestamp: real) returns (integrated: bool)
      requires Valid() && id in nodeIds
      modifies this`buckets, this`bucketOrder, this`bucketsOrdered, this`latestBucketStart, this`nodeBaselines
      ensures Valid()
      ensures var interval := IntervalTo(old(nodeBaselines), id, watts, timestamp, integrationHighWaterMs);
              && buckets == CreditInterval(old(buckets), nodeIds, Node(id), interval)
              && (integrated <==> interval.Some?)
      ensures nodeBaselines
              == if watts.None? then old(nodeBaselines) - {id}
                 else old(nodeBaselines)[id := Sample(timestamp, watts.value)]
    {
      integrated := false;
      if watts.None? {
        nodeBaselines := nodeBaselines - {id};
        return;
      }
      var current := Sample(timestamp, watts.value);
      var interval := None;
      if id in nodeBaselines {
        var gapMs := timestamp - nodeBaselines[id].atMs;
        if gapMs > 0.0 && gapMs <= MAX_GAP_MS {
          interval := UnaccountedInterval(nodeBaselines[id], current, integrationHighWaterMs);
        }
      }
      if interval.Some? {
        IntegrateNode(id, interval.value.previous, interval.value.current);
        integrated := true;
      }
      nodeBaselines := nodeBaselines[id := current];
    }

    /** The loop of `record` over the fleet's nodes. */
    method RecordNodes(byId: map<string, Snapshot>, timestamp: real, ghost snapshots: seq<Snapshot>)
      returns (validNodes: map<string, real>, integrated: bool)
      requires Valid()
      requires forall id :: id in byId <==> id in nodeIds && LastSnapshot(snapshots, id).Some?
      requires forall id :: id in byId ==> byId[id] == LastSnapshot(snapshots, id).value
      modifies this`buckets, this`bucketOrder, this`bucketsOrdered, this`latestBucketStart, this`nodeBaselines
      ensures Valid()
      ensures validNodes == Readings(snapshots, nodeIds)
      ensures Abs() == NodesCredited(old(Abs()), nodeIds, validNodes, timestamp)
      ensures integrated <==> exists id :: id in nodeIds && NodeInterval(old(Abs()), validNodes, timestamp, id).Some?
    {
      hide CreditNodes, NodesDone, CreditInterval, IntervalTo;
      ghost var st, readings := Abs(), Readings(snapshots, nodeIds);
      validNodes, integrated := map[], false;
      NodesStart(st, nodeIds, readings, timestamp);
      for i := 0 to |nodeIds|
        invariant Valid()
        invariant buckets == CreditNodes(st, nodeIds, readings, timestamp, i)
        invariant NodesDone(st, nodeIds, readings, timestamp, i, nodeBaselines, validNodes, integrated)
      {
        var id := nodeIds[i];
        var watts := if id in byId then EstimateNodeWatts(byId[id]) else None;
        ghost var before, baselines, valid, some := buckets, nodeBaselines, validNodes, integrated;
        var closed := RecordNode(id, watts, timestamp);
        if watts.Some? {
          validNodes := validNodes[id := watts.value];
        }
        integrated := integrated || closed;
        NodesStep(st, nodeIds, readings, timestamp, i, baselines, valid, some, watts, integrationHighWaterMs);
        CreditStep(st, nodeIds, readings, timestamp, i, baselines, watts, valid, some);
      }
      NodesEnd(st, nodeIds, readings, timestamp, nodeBaselines, validNodes, integrated);
    }

    /** Sum of a per-node table, in the order of the fleet. */
    method SumOverNodes(table: map<string, real>) returns (sum: real)
      ensures sum == Total(nodeIds, table)
    {
      sum := 0.0;
      for i := 0 to |nodeIds|
        invariant sum == Total(nodeIds[..i], table)
      {
        assert nodeIds[..i + 1][..i] == nodeIds[..i];
        sum := sum + Entry(table, nodeIds[i]);
      }
      assert nodeIds[..|nodeIds|] == nodeIds;
    }

    /** The fleet's turn in `record`: only when every node has a reading. */
    method RecordFleet(validNodes: map<string, real>, timestamp: real) returns (hasFullFleetInterval: bool)
      requires Valid() && validNodes.Keys <= set id | id in nodeIds
      modifies this`buckets, this`bucketOrder, this`bucketsOrdered, this`latestBucketStart, this`fleetBaseline
      ensures Valid()
      ensures var st := old(Abs());
              && Abs() == st.(buckets :=
                              CreditInterval(st.buckets, nodeIds, Fleet,
                                             FleetInterval(st, nodeIds, validNodes, timestamp)),
                              fleetBaseline := NewFleetBaseline(nodeIds, validNodes, timestamp))
              && (hasFullFleetInterval <==> FleetInterval(st, nodeIds, validNodes, timestamp).Some?)
    {
      hide Credited, WellFormed, OrderOk, Total, FullFleet;
      hasFullFleetInterval := false;
      FullFleetBySize(nodeIds, validNodes);
      if |nodeIds| > 0 && |validNodes| == |nodeIds| {
        var fleetWatts := SumOverNodes(validNodes);
        var current := Sample(timestamp, fleetWatts);
        var interval := None;
        if fleetBaseline.Some? {
          var gapMs := timestamp - fleetBaseline.value.atMs;
          if gapMs > 0.0 && gapMs <= MAX_GAP_MS {
            interval := UnaccountedInterval(fleetBaseline.value, current, integrationHighWaterMs);
          }
        }
        if interval.Some? {
          IntegrateFleet(interval.value.previous, interval.value.current);
          hasFullFleetInterval := true;
        }
        fleetBaseline := Some(current);
      } else {
        fleetBaseline := None;
      }
    }

    method AdvanceHighWater(timestamp: real)
      requires Valid()
      modifies this`integrationHighWaterMs
      ensures Valid() && Abs() == old(Abs()).(highWater := Advance(old(Abs()).highWater, timestamp))
    {
      integrationHighWaterMs :=
        Some(Max(if integrationHighWaterMs.Some? then integrationHighWaterMs.value else timestamp, timestamp));
    }

    /** Integration of one batch: nodes, fleet, and the high-water mark. */
    method Integrate(snapshots: seq<Snapshot>, timestamp: real) returns (hasFullFleetInterval: bool)
      requires Valid()
      modifies this
      ensures Valid()
      ensures Abs() == Integrated(old(Abs()), nodeIds, Readings(snapshots, nodeIds), timestamp)
      ensures hasFullFleetInterval <==>
                FleetInterval(old(Abs()), nodeIds, Readings(snapshots, nodeIds), timestamp).Some?
    {
      hide *;
      ghost var st := Abs();
      var byId := LatestById(snapshots);
      var validNodes, integratedAtTimestamp := RecordNodes(byId, timestamp, snapshots);
      ReadingsOfFleet(snapshots, nodeIds);
      ghost var nodes := Abs();
      hasFullFleetInterval := RecordFleet(validNodes, timestamp);
      if (integratedAtTimestamp || hasFullFleetInterval) && ValidHighWater(timestamp) {
        AdvanceHighWater(timestamp);
      }
      IntegratedInSteps(st, nodeIds, validNodes, timestamp, nodes, integratedAtTimestamp, hasFullFleetInterval, Abs());
    }

    method NeedsRebase(observation: TokenReading, atMs: real) returns (rebase: bool)
      ensures rebase <==> MustRebase(Abs(), observation, atMs)
    {
      if tokenCounter.None? || tokenNeedsRebase {
        return true;
      }
      var previous := tokenCounter.value;
      var gapMs := atMs - previous.observedAtMs;
      rebase := previous.source.headId != observation.headId || previous.source.port != observation.port
                || observation.totalOutputTokens < previous.source.totalOutputTokens || gapMs < 0.0
                   || gapMs > MAX_GAP_MS;
    }

    method RecordTokens(tokens: Option<TokenReading>, atMs: real, hasFullFleetInterval: bool)
      requires Valid()
      modifies this
      ensures Valid()
      ensures Abs() == TokensRecorded(old(Abs()), nodeIds, tokens, atMs, hasFullFleetInterval)
    {
      hide WellFormed, OrderOk, TokensAdded, BucketAt, Distinct, MustRebase, MinuteOf, ValidTokens, NoRepeats,
           Increasing, Elements;
      if tokens.None? {
        return;
      }
      var observation := tokens.value;
      var rebase := NeedsRebase(observation, atMs);
      CounterThere(Abs(), observation, atMs);
      if !rebase && observation.totalOutputTokens > tokenCounter.value.source.totalOutputTokens {
        var delta := observation.totalOutputTokens - tokenCounter.value.source.totalOutputTokens;
        var bucket := Bucket(MinuteOf(atMs));
        AddTokens(MinuteOf(atMs), bucket, delta, hasFullFleetInterval);
      }
      tokenCounter := Some(TokenObservation(observation, atMs));
      tokenNeedsRebase := false;
      dirty := true;
    }

    /** Adds to the token counts of a bucket, each only if it stays a safe integer. */
    method AddTokens(minuteStartMs: int, bucket: Bucket, delta: int, covered: bool)
      requires Valid() && minuteStartMs in buckets && buckets[minuteStartMs] == bucket
      modifies this`buckets
      ensures Valid() && buckets == old(buckets)[minuteStartMs := TokensAdded(bucket, delta, covered)]
    {
      var updated := bucket;
      var nextTotal := bucket.outputTokens + delta;
      if nextTotal <= MAX_SAFE_INTEGER {
        updated := updated.(outputTokens := nextTotal);
      }
      if covered {
        var nextCovered := bucket.coveredOutputTokens + delta;
        if nextCovered <= MAX_SAFE_INTEGER {
          updated := updated.(coveredOutputTokens := nextCovered);
        }
      }
      Put(minuteStartMs, updated);
    }

    /** One call of `record`; a repeated timestamp is refused and changes nothing. */
    method Record(snapshots: seq<Snapshot>, tokens: Option<TokenReading>, timestamp: real) returns (accepted: bool)
      requires Valid()
      modifies this
      ensures Valid()
      ensures accepted <==> old(latestRecordAt) != Some(timestamp)
      ensures Abs() == Recorded(old(Abs()), nodeIds, Readings(snapshots, nodeIds), tokens, timestamp)
    {
      hide WellFormed, OrderOk, TokensRecorded, Integrated, Pruned, Counted, Readings, Distinct;
      if latestRecordAt == Some(timestamp) {
        return false;
      }
      ghost var st := Abs();
      if latestRecordAt.Some? && timestamp < latestRecordAt.value {
        tokenNeedsRebase := true;
        nodeBaselines := map[];
        fleetBaseline := None;
      }
      var hasFullFleetInterval := Integrate(snapshots, timestamp);
      ghost var integrated := Abs();
      RecordTokens(tokens, timestamp, hasFullFleetInterval);
      latestRecordAt := Some(timestamp);
      dirty := true;
      CountedInSteps(st, nodeIds, Readings(snapshots, nodeIds), tokens, timestamp, integrated, Abs());
      PruneBuckets(timestamp);
      accepted := true;
    }

    /**
      Sorts the buckets if they came in out of order, drops those before the retention cutoff, stopping
      at the first that is not, and then the oldest beyond the cap.
     */
    method PruneBuckets(atMs: real)
      requires Valid()
      modifies this`buckets, this`bucketOrder, this`bucketsOrdered, this`latestBucketStart, this`dirty
      ensures Valid() && bucketsOrdered
      ensures Abs() == Pruned(old(Abs()), atMs)
    {
      hide WellFormed, OrderOk, Distinct, Kept, Survivors;
      SortBuckets();
      var cutoff := AlignedWindowCutoff(atMs, RETENTION_MS);
      KeptWellFormed(buckets, nodeIds, Survivors(buckets.Keys, cutoff));
      var changed := DropStale(cutoff);
      if changed {
        dirty := true;
      }
    }

    method DropStale(cutoff: int) returns (changed: bool)
      requires OrderOk(bucketOrder, buckets.Keys, true, latestBucketStart)
      modifies this`buckets, this`bucketOrder, this`latestBucketStart
      ensures OrderOk(bucketOrder, buckets.Keys, true, latestBucketStart)
      ensures buckets == Kept(old(buckets), Survivors(old(buckets).Keys, cutoff))
      ensures changed <==> Survivors(old(buckets).Keys, cutoff) != old(buckets).Keys
    {
      ghost var all := buckets;
      var early := DropBefore(cutoff);
      ghost var later := buckets;
      var late := DropBeyond(MAX_BUCKETS);
      DroppedInTwoSteps(all, later, buckets, cutoff);
      if latestBucketStart.Some? {
        LatestSurvives(all.Keys, cutoff, latestBucketStart.value);
      }
      EmptyOrder(bucketOrder, buckets);
      if |buckets| == 0 {
        latestBucketStart := None;
      }
      changed := early || late;
    }

    method SortBuckets()
      requires Valid()
      modifies this`bucketOrder, this`bucketsOrdered, this`latestBucketStart
      ensures Valid() && bucketsOrdered
    {
      if !bucketsOrdered {
        var sorted := SortStarts(bucketOrder);
        SortedOrderOk(sorted, buckets.Keys);
        bucketOrder := sorted;
        bucketsOrdered := true;
        latestBucketStart := if sorted == [] then None else Some(sorted[|sorted| - 1]);
      }
    }

    /** Deletes from the front of the order up to the first start that is not before the cutoff. */
    method DropBefore(cutoff: int) returns (changed: bool)
      requires Increasing(bucketOrder) && Elements(bucketOrder) == buckets.Keys
      modifies this`buckets, this`bucketOrder
      ensures Increasing(bucketOrder) && Elements(bucketOrder) == buckets.Keys
      ensures buckets == Kept(old(buckets), FromCutoff(old(buckets).Keys, cutoff))
      ensures changed <==> buckets.Keys != old(buckets).Keys
    {
      ghost var all := buckets;
      changed := false;
      KeptAll(all);
      while bucketOrder != [] && bucketOrder[0] < cutoff
        invariant Increasing(bucketOrder) && Elements(bucketOrder) == buckets.Keys
        invariant buckets.Keys <= all.Keys && buckets == Kept(all, buckets.Keys)
        invariant forall m :: m in all && m >= cutoff ==> m in buckets
        invariant changed <==> buckets.Keys != all.Keys
        decreases |bucketOrder|
      {
        DropFirst(bucketOrder, buckets.Keys);
        KeptStep(all, buckets.Keys, bucketOrder[0]);
        DeleteOldest();
        changed := true;
      }
      if bucketOrder != [] {
        DropFirst(bucketOrder, buckets.Keys);
      }
      assert buckets.Keys == FromCutoff(all.Keys, cutoff);
    }

    /** Deletes from the front of the order until at most `maximum` buckets are left. */
    method DropBeyond(maximum: nat) returns (changed: bool)
      requires Increasing(bucketOrder) && Elements(bucketOrder) == buckets.Keys
      modifies this`buckets, this`bucketOrder
      ensures Increasing(bucketOrder) && Elements(bucketOrder) == buckets.Keys
      ensures buckets == Kept(old(buckets), Newest(old(buckets).Keys, maximum))
      ensures changed <==> buckets.Keys != old(buckets).Keys
    {
      ghost var all := buckets;
      changed := false;
      KeptAll(all);
      while |buckets| > maximum
        invariant Increasing(bucketOrder) && Elements(bucketOrder) == buckets.Keys
        invariant buckets.Keys <= all.Keys && buckets == Kept(all, buckets.Keys)
        invariant UpperPart(buckets.Keys, all.Keys, maximum)
        invariant changed <==> buckets.Keys != all.Keys
        decreases |buckets|
      {
        assert |buckets.Keys| == |buckets|;
        DropFirst(bucketOrder, buckets.Keys);
        KeptStep(all, buckets.Keys, bucketOrder[0]);
        UpperPartShrinks(buckets.Keys, all.Keys, maximum, bucketOrder[0]);
        assert |buckets.Keys - {bucketOrder[0]}| < |buckets.Keys|;
        KeptStep(all, buckets.Keys - {bucketOrder[0]}, bucketOrder[0]);
        DeleteOldest();
        changed := true;
      }
      assert |buckets.Keys| == |buckets|;
      UpperPartIsNewest(buckets.Keys, all.Keys, maximum);
    }

    method DeleteOldest()
      requires bucketOrder != []
      modifies this`buckets, this`bucketOrder
      ensures buckets == old(buckets) - {old(bucketOrder)[0]} && bucketOrder == old(bucketOrder)[1..]
    {
      buckets := buckets - {bucketOrder[0]};
      bucketOrder := bucketOrder[1..];
    }

    // --- Reading --------------------------------------------------------------------------------

    /** Totals of the buckets from the aligned cutoff of a window up to `atMs`. */
    method Window(atMs: real, windowMs: real) returns (totals: Bucket)
      requires Valid()
      ensures totals == WindowTotals(buckets, nodeIds, bucketOrder, AlignedWindowCutoff(atMs, windowMs), atMs)
    {
      var cutoff := AlignedWindowCutoff(atMs, windowMs);
      totals := EmptyBucket(nodeIds);
      for i := 0 to |bucketOrder|
        invariant totals == WindowTotals(buckets, nodeIds, bucketOrder[..i], cutoff, atMs)
      {
        assert bucketOrder[..i + 1][..i] == bucketOrder[..i];
        assert bucketOrder[i] in Elements(bucketOrder);
        if bucketOrder[i] < cutoff || bucketOrder[i] as real > atMs {
          continue;
        }
        totals := Merge(nodeIds, totals, buckets[bucketOrder[i]]);
      }
      assert bucketOrder[..|bucketOrder|] == bucketOrder;
    }

    /** Average fleet watts of each of the 24 hours before the current minute; None where nothing was covered. */
    method Hourly(atMs: real) returns (averages: seq<Option<real>>)
      requires Valid()
      ensures |averages| == 24
      ensures forall k :: 0 <= k < 24 ==> averages[k] == Average(HourTotals(buckets, nodeIds, bucketOrder, atMs, k))
    {
      var graphEnd := MinuteOf(atMs);
      var graphStart := graphEnd - 24 * HOUR_MS;
      var aggregates := new FleetTotals[24](_ => NOTHING);
      for i := 0 to |bucketOrder|
        invariant forall k :: 0 <= k < 24 ==> aggregates[k] == HourTotals(buckets, nodeIds, bucketOrder[..i], atMs, k)
      {
        hide HourTotals, GraphStart, HourStart;
        var m := bucketOrder[i];
        assert m in Elements(bucketOrder);
        HourStep(buckets, nodeIds, bucketOrder, atMs, i);
        assert graphStart == GraphStart(atMs);
        if m < graphStart || m >= graphEnd {
          continue;
        }
        var index := (m - graphStart) / HOUR_MS;
        aggregates[index] := PlusBucket(aggregates[index], buckets[m]);
      }
      assert bucketOrder[..|bucketOrder|] == bucketOrder;
      averages := [];
      for k := 0 to 24
        invariant |averages| == k
        invariant forall j :: 0 <= j < k ==> averages[j] == Average(HourTotals(buckets, nodeIds, bucketOrder, atMs, j))
      {
        averages := averages + [Average(aggregates[k])];
      }
    }

    // --- Persistence ----------------------------------------------------------------------------

    /** The checks on the contents of one candidate. */
    method Validate(raw: RawBucket, tolerance: real) returns (valid: bool)
      ensures valid <==> ValidContents(raw, nodeIds, tolerance)
    {
      hide ValidNode, ValidFleetEnergy;
      var b := raw.contents;
      if !Shaped(b, nodeIds) {
        return false;
      }
      valid := true;
      var i := 0;
      while i < |nodeIds| && valid
        invariant 0 <= i <= |nodeIds|
        invariant valid ==>
                    forall j :: 0 <= j < i ==>
                      ValidNode(Entry(b.nodeWh, nodeIds[j]), Entry(b.nodeCoverageMs, nodeIds[j]), tolerance)
        invariant !valid ==>
                    exists id :: id in nodeIds
                      && !ValidNode(Entry(b.nodeWh, id), Entry(b.nodeCoverageMs, id), tolerance)
      {
        var id := nodeIds[i];
        valid := ValidNode(Entry(b.nodeWh, id), Entry(b.nodeCoverageMs, id), tolerance);
        i := i + 1;
      }
      if valid {
        var nodesWh := SumOverNodes(b.nodeWh);
        valid := && ValidFleetEnergy(b.fleetWattMs, b.fleetCoverageMs, 240.0 * |nodeIds| as real,
                                     MIN_NODE_WATTS * |nodeIds| as real,
                                     nodesWh * MS_PER_HOUR, tolerance)
                 && (forall id :: id in nodeIds ==> !Exceeds(b.fleetCoverageMs, Entry(b.nodeCoverageMs, id), tolerance))
                 && ValidCount(b.outputTokens)
                 && (raw.hasCoveredTokens ==> ValidCount(b.coveredOutputTokens));
      }
    }

    /** The loop of `_load` over the sorted candidates. */
    method LoadBuckets(candidates: seq<RawBucket>, tolerance: real, ghost raws: seq<RawBucket>) returns (rejected: bool)
      requires Valid() && buckets == map[] && ByStart(candidates) && SameClaims(candidates, raws)
      modifies this`buckets, this`bucketOrder, this`bucketsOrdered, this`latestBucketStart
      ensures Valid() && buckets == Accepted(raws, nodeIds, tolerance)
      ensures rejected <==> |buckets| != |raws|
    {
      hide Accepted, LoadedSoFar, ValidContents, Contents, ByStart, SameClaims, OrderOk, WellFormed;
      var seen := {};
      rejected, bucketOrder := false, [];
      LoadStart(nodeIds, tolerance);
      for i := 0 to |candidates|
        invariant LoadedSoFar(candidates[..i], nodeIds, tolerance, buckets, bucketOrder, seen, rejected)
      {
        var candidate := candidates[i];
        var m := candidate.minuteStartMs;
        SortedBefore(candidates, i);
        LoadStep(candidates[..i], candidate, nodeIds, tolerance, buckets, bucketOrder, seen, rejected);
        assert candidates[..i + 1] == candidates[..i] + [candidate];
        if !ValidStart(m) || m in seen {
          rejected := true;
          AlreadySeen(seen, m);
          continue;
        }
        seen := seen + {m};
        var valid := Validate(candidate, tolerance);
        if !valid {
          rejected := true;
          continue;
        }
        buckets := buckets[m := Contents(candidate)];
        bucketOrder := bucketOrder + [m];
      }
      assert candidates[..|candidates|] == candidates;
      LoadEnd(raws, candidates, nodeIds, tolerance, buckets, bucketOrder, seen, rejected);
      SortedOrderOk(bucketOrder, buckets.Keys);
      bucketsOrdered := true;
      latestBucketStart := if bucketOrder == [] then None else Some(bucketOrder[|bucketOrder| - 1]);
    }

    /** The last bucket, in order, that holds any coverage. */
    method LatestCovered() returns (latest: Option<int>)
      requires Valid() && bucketsOrdered
      ensures latest.None? ==> CoveredStarts(buckets, nodeIds) == {}
      ensures latest.Some? ==> IsLatestCovered(buckets, nodeIds, latest.value)
    {
      hide Covered;
      latest := None;
      for i := 0 to |bucketOrder|
        invariant LatestCoveredOf(buckets, nodeIds, bucketOrder, i, latest)
      {
        assert bucketOrder[i] in Elements(bucketOrder);
        if Covered(buckets[bucketOrder[i]], nodeIds) {
          latest := Some(bucketOrder[i]);
        }
      }
      LatestCoveredEnd(buckets, nodeIds, bucketOrder, latest);
    }

    /** Believes, repairs or drops the persisted high-water mark. */
    method LoadHighWater(persisted: Option<int>) returns (repaired: bool)
      requires Valid() && bucketsOrdered
      modifies this`integrationHighWaterMs
      ensures integrationHighWaterMs == LoadedHighWater(persisted, buckets, nodeIds)
      ensures repaired <==> !Believed(persisted, buckets, nodeIds)
    {
      hide LoadedHighWater, Believed;
      var latest := LatestCovered();
      HighWaterChosen(persisted, buckets, nodeIds, latest);
      repaired := false;
      if latest.Some? && ValidPersisted(persisted, buckets, nodeIds, latest.value) {
        integrationHighWaterMs := Some(persisted.value as real);
      } else if latest.Some? {
        integrationHighWaterMs := Some(Min((latest.value + MINUTE_MS) as real, MAX_SAFE_INTEGER as real));
        repaired := true;
      } else {
        integrationHighWaterMs := None;
        repaired := persisted.Some?;
      }
    }

    /** `_load` on a tracker that was just made; a file that is not loadable changes nothing. */
    method Load(file: File, tolerance: real, now: real)
      requires Valid() && Abs() == FRESH
      modifies this
      ensures Valid()
      ensures Abs() == Pruned(Loaded(file, nodeIds, tolerance), now)
    {
      hide Accepted, LoadedHighWater, Believed, SameClaims, ByStart, WellFormed, Pruned, ValidCounter, IsLoadable,
           Distinct, NoRepeats,
           Increasing, OrderOk, Elements;
      if !IsLoadable(file, nodeIds) {
        PrunedFresh(now);
        return;
      }
      var candidates := SortCandidates(file.buckets);
      var rejected := LoadBuckets(candidates, tolerance, file.buckets);
      SortBuckets();
      var repaired := LoadHighWater(file.integrationHighWaterMs);
      if ValidCounter(file.tokenCounter, nodeIds) {
        tokenCounter := file.tokenCounter;
        tokenNeedsRebase := true;
      }
      dirty := file.nodeIds.None? || rejected || repaired;
      assert Abs() == Loaded(file, nodeIds, tolerance);
      PruneBuckets(now);
    }

    /** `flush`: nothing to do unless something changed; otherwise prunes and writes everything. */
    method Flush(now: real) returns (written: Option<File>)
      requires Valid()
      modifies this
      ensures Valid()
      ensures written.Some? <==> old(dirty)
      ensures written.None? ==> Abs() == old(Abs())
      ensures written.Some? ==> Abs() == Pruned(old(Abs()), now).(dirty := false)
      ensures written.Some? ==> written.value == FileOf(Pruned(old(Abs()), now), nodeIds)
    {
      hide Pruned, WellFormed;
      if !dirty {
        return None;
      }
      PruneBuckets(now);
      IncreasingHasNoRepeats(bucketOrder);
      var starts := SortStarts(bucketOrder);
      IncreasingIsSorted(starts, buckets.Keys);
      var raws := List(starts);
      written := Some(File(FILE_VERSION, Some(nodeIds),
                           if integrationHighWaterMs.None? then None else Some(Ceiling(integrationHighWaterMs.value)),
                           tokenCounter, raws));
      assert written.value == FileOf(Abs(), nodeIds);
      dirty := false;
    }

    /** The buckets at the given starts, one after the other. */
    method List(starts: seq<int>) returns (raws: seq<RawBucket>)
      requires forall i :: 0 <= i < |starts| ==> starts[i] in buckets
      ensures raws == RawOf(starts, buckets)
    {
      raws := [];
      for i := 0 to |starts|
        invariant raws == RawOf(starts[..i], buckets)
      {
        assert starts[..i + 1] == starts[..i] + [starts[i]];
        RawOfExtend(starts[..i], starts[i], buckets);
        raws := raws + [RawBucket(starts[i], buckets[starts[i]], true)];
      }
      assert starts[..|starts|] == starts;
    }
  }
}
