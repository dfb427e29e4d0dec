/**
  The invariant that ties buckets, baselines and high-water mark together, and the proof that
  `record` and pruning keep it on any clock.
 */
module EnergyInvariant {
  import opened Options
  import opened EnergyArithmetic
  import opened EnergyBuckets
  import opened EnergyState
  import opened FiniteSets
  import opened RealArithmetic

  // --- One bucket -----------------------------------------------------------------------------

  /** The energy is what a draw between `lo` and `hi` watts yields over the time. */
  predicate EnergyWithin(lo: real, hi: real, time: real, energy: real) {
    lo * time <= energy <= hi * time
  }

  /** A node's energy fits its coverage, and the fleet was never covered longer than the node. */
  predicate NodeOk(b: Bucket, id: string) {
    && 0.0 <= b.fleetCoverageMs <= Entry(b.nodeCoverageMs, id)
    && EnergyWithin(MIN_NODE_WATTS, MAX_NODE_WATTS, Entry(b.nodeCoverageMs, id), Entry(b.nodeWh, id) * MS_PER_HOUR)
  }

  predicate FleetOk(b: Bucket, ids: seq<string>) {
    && 0.0 <= b.fleetCoverageMs
    && EnergyWithin(MIN_NODE_WATTS * |ids| as real, MAX_NODE_WATTS * |ids| as real, b.fleetCoverageMs, b.fleetWattMs)
    && b.fleetWattMs <= MS_PER_HOUR * Total(ids, b.nodeWh)
  }

  predicate TokensOk(b: Bucket) {
    0 <= b.outputTokens <= MAX_SAFE_INTEGER && 0 <= b.coveredOutputTokens <= MAX_SAFE_INTEGER
  }

  predicate BucketOk(b: Bucket, ids: seq<string>) {
    && Shaped(b, ids)
    && (forall id :: id in ids ==> NodeOk(b, id))
    && FleetOk(b, ids)
    && TokensOk(b)
  }

  /** No node, and not the fleet, was covered longer than `limit`. */
  predicate CoverageWithin(b: Bucket, ids: seq<string>, limit: real) {
    && b.fleetCoverageMs <= limit
    && forall id :: id in ids ==> Entry(b.nodeCoverageMs, id) <= limit
  }

  predicate Covered(b: Bucket, ids: seq<string>) {
    b.fleetCoverageMs > 0.0 || exists id :: id in ids && Entry(b.nodeCoverageMs, id) > 0.0
  }

  function ElapsedTo(m: int, highWater: Option<real>): real {
    if highWater.None? then 0.0 else Elapsed(m, highWater.value)
  }

  // --- The whole state ------------------------------------------------------------------------

  predicate BucketsOk(buckets: Buckets, ids: seq<string>, highWater: Option<real>) {
    && WellFormed(buckets, ids)
    && forall m :: m in buckets ==>
         && m <= MAX_SAFE_INTEGER
         && BucketOk(buckets[m], ids)
         && (m >= 0 ==> CoverageWithin(buckets[m], ids, ElapsedTo(m, highWater)))
  }

  /** While any bucket of a non-negative minute is covered, the minute that the high-water mark ends is. */
  predicate HighWaterBacked(buckets: Buckets, ids: seq<string>, highWater: Option<real>) {
    && (highWater.Some? ==> ValidHighWater(highWater.value))
    && ((exists m :: m in buckets && m >= 0 && Covered(buckets[m], ids)) ==>
          && highWater.Some?
          && MinuteEndingAtOrAfter(highWater.value) in buckets
          && Covered(buckets[MinuteEndingAtOrAfter(highWater.value)], ids))
  }

  predicate InBounds(watts: real, count: int) {
    MIN_NODE_WATTS * count as real <= watts <= MAX_NODE_WATTS * count as real
  }

  function Watts(baselines: map<string, Sample>): map<string, real> {
    map id | id in baselines :: baselines[id].watts
  }

  /**
    The fleet has a baseline exactly when all its nodes have; all were taken at the latest record, and the fleet's is
    their sum.
   */
  predicate BaselinesOk(st: State, ids: seq<string>) {
    && (st.latestRecordAt.None? ==> st.baselines == map[] && st.fleetBaseline.None?)
    && (forall id :: id in st.baselines ==>
          && id in ids
          && st.latestRecordAt == Some(st.baselines[id].atMs)
          && InBounds(st.baselines[id].watts, 1))
    && (st.fleetBaseline.Some? <==> ids != [] && forall id :: id in ids ==> id in st.baselines)
    && (st.fleetBaseline.Some? ==>
          && st.latestRecordAt == Some(st.fleetBaseline.value.atMs)
          && st.fleetBaseline.value.watts == Total(ids, Watts(st.baselines)))
  }

  predicate CounterOk(st: State, ids: seq<string>) {
    st.tokenCounter.Some? ==> ValidTokens(st.tokenCounter.value.source, ids)
  }

  predicate Inv(st: State, ids: seq<string>) {
    && BucketsOk(st.buckets, ids, st.highWater)
    && HighWaterBacked(st.buckets, ids, st.highWater)
    && BaselinesOk(st, ids)
    && CounterOk(st, ids)
  }

  // --- What one record adds to one minute -----------------------------------------------------

  function TimeShare(r: Option<Ramp>, m: int): real
    requires r.Some? ==> r.value.Valid()
  {
    if r.None? then 0.0 else Overlap(m, r.value.previous.atMs, r.value.current.atMs)
  }

  function EnergyShare(r: Option<Ramp>, m: int): real
    requires r.Some? ==> r.value.Valid()
  {
    if r.None? then 0.0 else r.value.AreaIn(m, r.value.current.atMs)
  }

  /** Bucket `b'` is bucket `b` after the first `k` nodes were integrated. */
  ghost predicate NodesAdded(b: Bucket, b': Bucket, st: State, ids: seq<string>, readings: map<string, real>, t: real,
                             k: nat, m: int) {
    && Shaped(b', ids)
    && b'.fleetWattMs == b.fleetWattMs && b'.fleetCoverageMs == b.fleetCoverageMs
    && b'.outputTokens == b.outputTokens && b'.coveredOutputTokens == b.coveredOutputTokens
    && forall i :: 0 <= i < |ids| ==>
         var r := if i < k then NodeInterval(st, readings, t, ids[i]) else None;
         && Entry(b'.nodeCoverageMs, ids[i]) == Entry(b.nodeCoverageMs, ids[i]) + TimeShare(r, m)
         && Entry(b'.nodeWh, ids[i]) == Entry(b.nodeWh, ids[i]) + EnergyShare(r, m) / MS_PER_HOUR
  }

  lemma NodeAdded(b: Bucket, b': Bucket, b'': Bucket, st: State, ids: seq<string>, readings: map<string, real>,
                  t: real, k: nat, m: int)
    requires Distinct(ids) && k < |ids| && NodesAdded(b, b', st, ids, readings, t, k, m)
    requires var r := NodeInterval(st, readings, t, ids[k]);
             b'' == if r.None? then b' else Add(b', Node(ids[k]), TimeShare(r, m), EnergyShare(r, m))
    ensures NodesAdded(b, b'', st, ids, readings, t, k + 1, m)
  {
    forall i | 0 <= i < |ids|
      ensures var r := if i < k + 1 then NodeInterval(st, readings, t, ids[i]) else None;
              && Entry(b''.nodeCoverageMs, ids[i]) == Entry(b.nodeCoverageMs, ids[i]) + TimeShare(r, m)
              && Entry(b''.nodeWh, ids[i]) == Entry(b.nodeWh, ids[i]) + EnergyShare(r, m) / MS_PER_HOUR
    {
      if i != k {
        assert ids[i] != ids[k];
        assert Entry(b''.nodeCoverageMs, ids[i]) == Entry(b'.nodeCoverageMs, ids[i]);
        assert Entry(b''.nodeWh, ids[i]) == Entry(b'.nodeWh, ids[i]);
      }
    }
  }

  lemma {:induction false} CreditNodesWellFormed(st: State, ids: seq<string>, readings: map<string, real>, t: real,
                                                 k: nat)
    requires WellFormed(st.buckets, ids) && k <= |ids|
    ensures WellFormed(CreditNodes(st, ids, readings, t, k), ids)
  {
    hide Credited, NodeInterval, WellFormed;
    if k > 0 {
      CreditNodesWellFormed(st, ids, readings, t, k - 1);
      var r := NodeInterval(st, readings, t, ids[k - 1]);
      if r.Some? {
        CreditedWellFormed(CreditNodes(st, ids, readings, t, k - 1), ids, Node(ids[k - 1]), r.value,
                           r.value.previous.atMs, t);
      }
    }
  }

  /** The minutes that the first `k` nodes' intervals touch join the others. */
  lemma CreditNodeKeys(st: State, ids: seq<string>, readings: map<string, real>, t: real, k: nat)
    requires k < |ids|
    ensures var r := NodeInterval(st, readings, t, ids[k]);
            CreditNodes(st, ids, readings, t, k + 1).Keys
            == CreditNodes(st, ids, readings, t, k).Keys + if r.None? then {} else Minutes(r.value.previous.atMs, t)
  {
    hide Credited, NodeInterval, Minutes;
    var r := NodeInterval(st, readings, t, ids[k]);
    if r.Some? {
      CreditedKeys(CreditNodes(st, ids, readings, t, k), ids, Node(ids[k]), r.value, r.value.previous.atMs, t);
    }
  }

  lemma {:induction false} CreditNodesKeys(st: State, ids: seq<string>, readings: map<string, real>, t: real, k: nat)
    requires k <= |ids|
    ensures st.buckets.Keys <= CreditNodes(st, ids, readings, t, k).Keys
    ensures forall n :: n in CreditNodes(st, ids, readings, t, k).Keys ==> n in st.buckets || (n as real) < t
  {
    if k > 0 {
      CreditNodesKeys(st, ids, readings, t, k - 1);
      hide CreditNodes, NodeInterval;
      CreditNodeKeys(st, ids, readings, t, k - 1);
    }
  }

  lemma {:induction false} CreditNodesMinutes(st: State, ids: seq<string>, readings: map<string, real>, t: real,
                                              k: nat, i: nat)
    requires i < k <= |ids| && NodeInterval(st, readings, t, ids[i]).Some?
    ensures Minutes(NodeInterval(st, readings, t, ids[i]).value.previous.atMs, t)
            <= CreditNodes(st, ids, readings, t, k).Keys
  {
    hide CreditNodes, NodeInterval, Minutes;
    CreditNodeKeys(st, ids, readings, t, k - 1);
    if i < k - 1 { CreditNodesMinutes(st, ids, readings, t, k - 1, i); }
  }

  lemma {:induction false} CreditNodesView(st: State, ids: seq<string>, readings: map<string, real>, t: real, k: nat,
                                           m: int)
    requires WellFormed(st.buckets, ids) && Distinct(ids) && k <= |ids| && m % MINUTE_MS == 0
    ensures NodesAdded(BucketAt(st.buckets, m, ids), BucketAt(CreditNodes(st, ids, readings, t, k), m, ids), st, ids,
                       readings, t, k, m)
  {
    hide NodesAdded, NodeInterval, BucketAt, Add, TimeShare, EnergyShare, Distinct, WellFormed;
    if k == 0 {
      NoneAdded(st, ids, readings, t, m);
    } else {
      hide CreditNodes;
      CreditNodesView(st, ids, readings, t, k - 1, m);
      CreditNodeStep(st, ids, readings, t, k - 1, m);
      NodeAdded(BucketAt(st.buckets, m, ids), BucketAt(CreditNodes(st, ids, readings, t, k - 1), m, ids),
                BucketAt(CreditNodes(st, ids, readings, t, k), m, ids), st, ids, readings, t, k - 1, m);
    }
  }

  lemma NoneAdded(st: State, ids: seq<string>, readings: map<string, real>, t: real, m: int)
    requires WellFormed(st.buckets, ids)
    ensures var b := BucketAt(st.buckets, m, ids); NodesAdded(b, b, st, ids, readings, t, 0, m)
  {
    hide NodeInterval;
    assert TimeShare(None, m) == 0.0 && EnergyShare(None, m) / MS_PER_HOUR == 0.0;
  }

  lemma CreditNodeStep(st: State, ids: seq<string>, readings: map<string, real>, t: real, k: nat, m: int)
    requires WellFormed(st.buckets, ids) && k < |ids| && m % MINUTE_MS == 0
    ensures var r := NodeInterval(st, readings, t, ids[k]);
            var b := BucketAt(CreditNodes(st, ids, readings, t, k), m, ids);
            && BucketAt(CreditNodes(st, ids, readings, t, k + 1), m, ids)
            == if r.None? then b else Add(b, Node(ids[k]), TimeShare(r, m), EnergyShare(r, m))
  {
    CreditNodesWellFormed(st, ids, readings, t, k);
    var r := NodeInterval(st, readings, t, ids[k]);
    if r.Some? {
      CreditedAt(CreditNodes(st, ids, readings, t, k), ids, Node(ids[k]), r.value, r.value.previous.atMs, t, m);
    }
  }

  // --- The intervals of one record ------------------------------------------------------------

  /** Where the interval that a record at a later instant integrates starts. */
  function StartOf(from: real, highWater: Option<real>): real {
    if highWater.None? then from else Max(from, highWater.value)
  }

  lemma IntervalFacts(baseline: Option<Sample>, current: Sample, highWater: Option<real>, count: int)
    requires Interval(baseline, current, highWater).Some?
    requires InBounds(baseline.value.watts, count) && InBounds(current.watts, count)
    ensures var r := Interval(baseline, current, highWater).value;
            && r.previous.atMs == StartOf(baseline.value.atMs, highWater) < current.atMs
            && InBounds(r.previous.watts, count)
            && (forall t :: r.At(t) == Ramp(baseline.value, current).At(t))
  {
    var line := Ramp(baseline.value, current);
    var r := Interval(baseline, current, highWater).value;
    if r != line {
      var cut := highWater.value;
      AtBounded(line, MIN_NODE_WATTS * count as real, MAX_NODE_WATTS * count as real, cut);
      forall t ensures r.At(t) == line.At(t) {
        CutKeepsLine(line, cut, t);
      }
    }
  }

  predicate CanRecord(st: State, ids: seq<string>, readings: map<string, real>) {
    Distinct(ids) && Inv(st, ids) && ValidReadings(readings, ids)
  }

  lemma NodeIntervalFacts(st: State, ids: seq<string>, readings: map<string, real>, t: real, id: string, m: int)
    requires CanRecord(st, ids, readings)
    requires NodeInterval(st, readings, t, id).Some?
    ensures var r := NodeInterval(st, readings, t, id).value;
            && st.latestRecordAt.Some?
            && r.previous.atMs == StartOf(st.latestRecordAt.value, st.highWater) < t
            && TimeShare(Some(r), m) >= 0.0
            && MIN_NODE_WATTS * TimeShare(Some(r), m) <= EnergyShare(Some(r), m)
               <= MAX_NODE_WATTS * TimeShare(Some(r), m)
  {
    IntervalFacts(BaselineOf(st.baselines, id), Sample(t, readings[id]), st.highWater, 1);
    AreaInBounded(NodeInterval(st, readings, t, id).value, MIN_NODE_WATTS, MAX_NODE_WATTS, m);
  }

  function NodeEnergies(st: State, ids: seq<string>, readings: map<string, real>, t: real, m: int): map<string, real> {
    map id | id in ids :: EnergyShare(NodeInterval(st, readings, t, id), m)
  }

  function NodeTimes(st: State, ids: seq<string>, readings: map<string, real>, t: real, m: int): map<string, real> {
    map id | id in ids :: TimeShare(NodeInterval(st, readings, t, id), m)
  }

  /** Where between the two samples the middle of [x, y] lies. */
  function MeanFraction(from: real, to: real, x: real, y: real): real
    requires from < to
  {
    ((x - from) / (to - from) + (y - from) / (to - from)) / 2.0
  }

  function Trapezoid(p: real, c: real, fraction: real, width: real): real {
    width * (p + fraction * (c - p))
  }

  lemma AreaByFraction(from: real, to: real, p: real, c: real, x: real, y: real)
    requires from < to
    ensures Ramp(Sample(from, p), Sample(to, c)).Area(x, y) == Trapezoid(p, c, MeanFraction(from, to, x, y), y - x)
  {
    HalvesMeet(p, c - p, (x - from) / (to - from), (y - from) / (to - from), y - x);
  }

  lemma HalvesMeet(p: real, d: real, a: real, b: real, h: real)
    ensures ((p + d * a) + (p + d * b)) / 2.0 * h == h * (p + (a + b) / 2.0 * d)
  {
  }

  /** The sum of the nodes' trapezoids is the trapezoid of the sums. */
  lemma {:induction false} TrapezoidsAddUp(ids: seq<string>, p: map<string, real>, c: map<string, real>,
                                           areas: map<string, real>, g: real, h: real)
    requires forall id :: id in ids ==> Entry(areas, id) == Trapezoid(Entry(p, id), Entry(c, id), g, h)
    ensures Total(ids, areas) == Trapezoid(Total(ids, p), Total(ids, c), g, h)
  {
    if ids != [] {
      var rest, id := ids[..|ids| - 1], ids[|ids| - 1];
      TrapezoidsAddUp(rest, p, c, areas, g, h);
      TrapezoidsAdd(Total(rest, p), Total(rest, c), Entry(p, id), Entry(c, id), g, h);
    }
  }

  lemma TrapezoidsAdd(p: real, c: real, p': real, c': real, g: real, h: real)
    ensures Trapezoid(p, c, g, h) + Trapezoid(p', c', g, h) == Trapezoid(p + p', c + c', g, h)
  {
  }

  /** A fleet interval runs over the same time as every node's, and its energy is the sum of theirs. */
  lemma FleetIntervalFacts(st: State, ids: seq<string>, readings: map<string, real>, t: real, m: int)
    requires CanRecord(st, ids, readings)
    requires FleetInterval(st, ids, readings, t).Some?
    ensures var f := FleetInterval(st, ids, readings, t);
            && st.latestRecordAt.Some?
            && f.value.previous.atMs == StartOf(st.latestRecordAt.value, st.highWater)
            && (forall id :: id in ids ==>
                  && NodeInterval(st, readings, t, id).Some?
                  && NodeInterval(st, readings, t, id).value.previous.atMs == f.value.previous.atMs)
            && EnergyShare(f, m) == Total(ids, NodeEnergies(st, ids, readings, t, m))
  {
    hide Total, CanRecord, Edge, NodeInterval, StartOf, FleetInterval;
    var f := FleetInterval(st, ids, readings, t).value;
    var x, y := Edge(m, f.previous.atMs), Edge(m, t);
    FleetArea(st, ids, readings, t, m);
    var g := MeanFraction(st.latestRecordAt.value, t, x, y);
    forall id | id in ids
      ensures NodeInterval(st, readings, t, id).Some?
      ensures NodeInterval(st, readings, t, id).value.previous.atMs == f.previous.atMs
      ensures Entry(NodeEnergies(st, ids, readings, t, m), id)
           == Trapezoid(Entry(Watts(st.baselines), id), Entry(readings, id), g, y - x)
    {
      NodeArea(st, ids, readings, t, m, id);
    }
    TrapezoidsAddUp(ids, Watts(st.baselines), readings, NodeEnergies(st, ids, readings, t, m), g, y - x);
  }

  /** The fleet has an interval exactly when all its nodes have. */
  lemma FleetIntervalIff(st: State, ids: seq<string>, readings: map<string, real>, t: real)
    requires CanRecord(st, ids, readings)
    ensures FleetInterval(st, ids, readings, t).Some? <==>
              ids != [] && forall id :: id in ids ==> NodeInterval(st, readings, t, id).Some?
  {
    hide Total;
    if ids != [] {
      assert ids[0] in ids;
    }
  }

  lemma FleetArea(st: State, ids: seq<string>, readings: map<string, real>, t: real, m: int)
    requires CanRecord(st, ids, readings)
    requires FleetInterval(st, ids, readings, t).Some?
    ensures st.latestRecordAt.Some? && st.latestRecordAt.value < t
    ensures var f := FleetInterval(st, ids, readings, t);
            var s, x, y := st.latestRecordAt.value, Edge(m, f.value.previous.atMs), Edge(m, t);
            && f.value.previous.atMs == StartOf(s, st.highWater)
            && EnergyShare(f, m)
               == Trapezoid(Total(ids, Watts(st.baselines)), Total(ids, readings), MeanFraction(s, t, x, y), y - x)
  {
    TotalInBounds(ids, Watts(st.baselines));
    TotalInBounds(ids, readings);
    AreaOfInterval(st.fleetBaseline, Sample(t, Total(ids, readings)), st.highWater, |ids|, m);
  }

  lemma NodeArea(st: State, ids: seq<string>, readings: map<string, real>, t: real, m: int, id: string)
    requires CanRecord(st, ids, readings) && id in ids
    requires FleetInterval(st, ids, readings, t).Some?
    ensures st.latestRecordAt.Some? && st.latestRecordAt.value < t
    ensures NodeInterval(st, readings, t, id).Some?
    ensures var r := NodeInterval(st, readings, t, id);
            var s, x, y := st.latestRecordAt.value, Edge(m, r.value.previous.atMs), Edge(m, t);
            && r.value.previous.atMs == StartOf(s, st.highWater)
            && EnergyShare(r, m)
               == Trapezoid(Entry(Watts(st.baselines), id), Entry(readings, id), MeanFraction(s, t, x, y), y - x)
  {
    AreaOfInterval(BaselineOf(st.baselines, id), Sample(t, readings[id]), st.highWater, 1, m);
  }

  lemma AreaOfInterval(baseline: Option<Sample>, current: Sample, highWater: Option<real>, count: int, m: int)
    requires Interval(baseline, current, highWater).Some?
    requires InBounds(baseline.value.watts, count) && InBounds(current.watts, count)
    ensures var r := Interval(baseline, current, highWater);
            var x, y := Edge(m, r.value.previous.atMs), Edge(m, current.atMs);
            && EnergyShare(r, m)
               == Trapezoid(baseline.value.watts, current.watts,
                            MeanFraction(baseline.value.atMs, current.atMs, x, y), y - x)
            && r.value.previous.atMs == StartOf(baseline.value.atMs, highWater)
  {
    IntervalFacts(baseline, current, highWater, count);
    var r := Interval(baseline, current, highWater).value;
    var x, y := Edge(m, r.previous.atMs), Edge(m, current.atMs);
    SameArea(r, Ramp(baseline.value, current), x, y);
    AreaByFraction(baseline.value.atMs, current.atMs, baseline.value.watts, current.watts, x, y);
  }

  lemma {:induction false} TotalInBounds(ids: seq<string>, table: map<string, real>)
    requires forall id :: id in ids ==> InBounds(Entry(table, id), 1)
    ensures InBounds(Total(ids, table), |ids|)
  {
    if ids != [] {
      TotalInBounds(ids[..|ids| - 1], table);
    }
  }

  // --- One record keeps every bucket ----------------------------------------------------------

  /** Bucket of minute `m` before and after the samples of one record are integrated. */
  function BucketBefore(st: State, ids: seq<string>, m: int): Bucket {
    BucketAt(st.buckets, m, ids)
  }

  function BucketAfter(st: State, ids: seq<string>, readings: map<string, real>, t: real, m: int): Bucket {
    BucketAt(CreditFleet(st, ids, readings, t), m, ids)
  }

  /** Everything one record adds to one minute: per node, and for the fleet. */
  lemma IntegrationView(st: State, ids: seq<string>, readings: map<string, real>, t: real, m: int)
    requires CanRecord(st, ids, readings) && m % MINUTE_MS == 0
    ensures var b, b' := BucketBefore(st, ids, m), BucketAfter(st, ids, readings, t, m);
            var f := FleetInterval(st, ids, readings, t);
            && Shaped(b, ids) && Shaped(b', ids)
            && b'.fleetCoverageMs == b.fleetCoverageMs + TimeShare(f, m)
            && b'.fleetWattMs == b.fleetWattMs + EnergyShare(f, m)
            && b'.outputTokens == b.outputTokens && b'.coveredOutputTokens == b.coveredOutputTokens
            && (forall id :: id in ids ==>
                  && Entry(b'.nodeCoverageMs, id)
                     == Entry(b.nodeCoverageMs, id) + TimeShare(NodeInterval(st, readings, t, id), m)
                  && Entry(b'.nodeWh, id)
                     == Entry(b.nodeWh, id) + EnergyShare(NodeInterval(st, readings, t, id), m) / MS_PER_HOUR)
  {
    var nodes := CreditNodes(st, ids, readings, t, |ids|);
    CreditNodesWellFormed(st, ids, readings, t, |ids|);
    CreditNodesView(st, ids, readings, t, |ids|, m);
    var f := FleetInterval(st, ids, readings, t);
    if f.Some? {
      CreditedAt(nodes, ids, Fleet, f.value, f.value.previous.atMs, t, m);
    }
  }

  lemma CreditFleetKeys(st: State, ids: seq<string>, readings: map<string, real>, t: real)
    requires WellFormed(st.buckets, ids)
    ensures WellFormed(CreditFleet(st, ids, readings, t), ids)
    ensures st.buckets.Keys <= CreditFleet(st, ids, readings, t).Keys
    ensures forall id :: id in ids && NodeInterval(st, readings, t, id).Some? ==>
              Minutes(NodeInterval(st, readings, t, id).value.previous.atMs, t)
                <= CreditFleet(st, ids, readings, t).Keys
    ensures forall n :: n in CreditFleet(st, ids, readings, t) ==> n in st.buckets || (n as real) < t
  {
    hide Credited, NodeInterval, WellFormed, CreditNodes, FleetInterval;
    var nodes := CreditNodes(st, ids, readings, t, |ids|);
    CreditNodesWellFormed(st, ids, readings, t, |ids|);
    CreditNodesKeys(st, ids, readings, t, |ids|);
    var f := FleetInterval(st, ids, readings, t);
    if f.Some? {
      CreditedWellFormed(nodes, ids, Fleet, f.value, f.value.previous.atMs, t);
      CreditedKeys(nodes, ids, Fleet, f.value, f.value.previous.atMs, t);
    }
    forall id | id in ids && NodeInterval(st, readings, t, id).Some?
      ensures Minutes(NodeInterval(st, readings, t, id).value.previous.atMs, t)
              <= CreditFleet(st, ids, readings, t).Keys
    {
      var i :| 0 <= i < |ids| && ids[i] == id;
      CreditNodesMinutes(st, ids, readings, t, |ids|, i);
    }
  }

  lemma NodeKept(st: State, ids: seq<string>, readings: map<string, real>, t: real, m: int, id: string)
    requires CanRecord(st, ids, readings) && m % MINUTE_MS == 0 && id in ids
    requires NodeOk(BucketBefore(st, ids, m), id)
    ensures NodeOk(BucketAfter(st, ids, readings, t, m), id)
  {
    IntegrationView(st, ids, readings, t, m);
    if NodeInterval(st, readings, t, id).Some? {
      NodeIntervalFacts(st, ids, readings, t, id, m);
    }
    if FleetInterval(st, ids, readings, t).Some? {
      FleetIntervalFacts(st, ids, readings, t, m);
    }
  }

  lemma EnergyTotals(st: State, ids: seq<string>, readings: map<string, real>, t: real, m: int)
    requires CanRecord(st, ids, readings) && m % MINUTE_MS == 0
    ensures MS_PER_HOUR * Total(ids, BucketAfter(st, ids, readings, t, m).nodeWh)
         == MS_PER_HOUR * Total(ids, BucketBefore(st, ids, m).nodeWh)
            + Total(ids, NodeEnergies(st, ids, readings, t, m))
    ensures Total(ids, BucketAfter(st, ids, readings, t, m).nodeCoverageMs)
         == Total(ids, BucketBefore(st, ids, m).nodeCoverageMs) + Total(ids, NodeTimes(st, ids, readings, t, m))
  {
    IntegrationView(st, ids, readings, t, m);
    EnergyGrows(ids, BucketBefore(st, ids, m).nodeWh, BucketAfter(st, ids, readings, t, m).nodeWh,
                NodeEnergies(st, ids, readings, t, m));
    TotalAdds(ids, BucketBefore(st, ids, m).nodeCoverageMs, NodeTimes(st, ids, readings, t, m),
              BucketAfter(st, ids, readings, t, m).nodeCoverageMs);
  }

  lemma {:induction false} EnergyGrows(ids: seq<string>, wh: map<string, real>, wh': map<string, real>,
                                       energies: map<string, real>)
    requires forall id :: id in ids ==> Entry(wh', id) == Entry(wh, id) + Entry(energies, id) / MS_PER_HOUR
    ensures MS_PER_HOUR * Total(ids, wh') == MS_PER_HOUR * Total(ids, wh) + Total(ids, energies)
  {
    if ids != [] {
      EnergyGrows(ids[..|ids| - 1], wh, wh', energies);
    }
  }

  lemma {:induction false} TotalNonnegative(ids: seq<string>, table: map<string, real>)
    requires forall id :: id in ids ==> Entry(table, id) >= 0.0
    ensures Total(ids, table) >= 0.0
  {
    if ids != [] {
      TotalNonnegative(ids[..|ids| - 1], table);
    }
  }

  lemma GrowthInBounds(lo: real, hi: real, time: real, energy: real, moreTime: real, moreEnergy: real)
    requires EnergyWithin(lo, hi, time, energy) && EnergyWithin(lo, hi, moreTime, moreEnergy)
    ensures EnergyWithin(lo, hi, time + moreTime, energy + moreEnergy)
  {
    Undistribute(lo, time, moreTime);
    Undistribute(hi, time, moreTime);
  }

  lemma FleetKept(st: State, ids: seq<string>, readings: map<string, real>, t: real, m: int)
    requires CanRecord(st, ids, readings) && m % MINUTE_MS == 0
    requires FleetOk(BucketBefore(st, ids, m), ids)
    ensures FleetOk(BucketAfter(st, ids, readings, t, m), ids)
  {
    IntegrationView(st, ids, readings, t, m);
    EnergyTotals(st, ids, readings, t, m);
    var f := FleetInterval(st, ids, readings, t);
    if f.Some? {
      FleetIntervalFacts(st, ids, readings, t, m);
      FleetShareBounded(st, ids, readings, t, m);
    } else {
      EnergiesNonnegative(st, ids, readings, t, m);
    }
    FleetGrows(BucketBefore(st, ids, m), BucketAfter(st, ids, readings, t, m), ids, TimeShare(f, m), EnergyShare(f, m));
  }

  lemma FleetGrows(b: Bucket, b': Bucket, ids: seq<string>, time: real, energy: real)
    requires FleetOk(b, ids) && time >= 0.0
    requires EnergyWithin(MIN_NODE_WATTS * |ids| as real, MAX_NODE_WATTS * |ids| as real, time, energy)
    requires b'.fleetCoverageMs == b.fleetCoverageMs + time && b'.fleetWattMs == b.fleetWattMs + energy
    requires MS_PER_HOUR * Total(ids, b'.nodeWh) >= MS_PER_HOUR * Total(ids, b.nodeWh) + energy
    ensures FleetOk(b', ids)
  {
    GrowthInBounds(MIN_NODE_WATTS * |ids| as real, MAX_NODE_WATTS * |ids| as real, b.fleetCoverageMs, b.fleetWattMs,
                   time, energy);
  }

  lemma EnergiesNonnegative(st: State, ids: seq<string>, readings: map<string, real>, t: real, m: int)
    requires CanRecord(st, ids, readings)
    ensures Total(ids, NodeEnergies(st, ids, readings, t, m)) >= 0.0
  {
    forall id | id in ids ensures Entry(NodeEnergies(st, ids, readings, t, m), id) >= 0.0 {
      if NodeInterval(st, readings, t, id).Some? { NodeIntervalFacts(st, ids, readings, t, id, m); }
    }
    TotalNonnegative(ids, NodeEnergies(st, ids, readings, t, m));
  }

  lemma FleetShareBounded(st: State, ids: seq<string>, readings: map<string, real>, t: real, m: int)
    requires CanRecord(st, ids, readings)
    requires FleetInterval(st, ids, readings, t).Some?
    ensures TimeShare(FleetInterval(st, ids, readings, t), m) >= 0.0
    ensures EnergyWithin(MIN_NODE_WATTS * |ids| as real, MAX_NODE_WATTS * |ids| as real,
                         TimeShare(FleetInterval(st, ids, readings, t), m),
                         EnergyShare(FleetInterval(st, ids, readings, t), m))
  {
    TotalInBounds(ids, Watts(st.baselines));
    TotalInBounds(ids, readings);
    IntervalFacts(st.fleetBaseline, Sample(t, Total(ids, readings)), st.highWater, |ids|);
    ShareBounded(FleetInterval(st, ids, readings, t).value, MIN_NODE_WATTS * |ids| as real,
                 MAX_NODE_WATTS * |ids| as real, m);
  }

  lemma ShareBounded(r: Ramp, lo: real, hi: real, m: int)
    requires r.Valid()
    requires lo <= r.previous.watts <= hi && lo <= r.current.watts <= hi
    ensures EnergyWithin(lo, hi, TimeShare(Some(r), m), EnergyShare(Some(r), m))
    ensures TimeShare(Some(r), m) >= 0.0
  {
    AreaInBounded(r, lo, hi, m);
  }

  function HighWaterAfter(st: State, ids: seq<string>, readings: map<string, real>, t: real): Option<real> {
    Integrated(st, ids, readings, t).highWater
  }

  /** The time added to a minute is at most what the high-water mark newly covers of it. */
  lemma CoverageKept(st: State, ids: seq<string>, readings: map<string, real>, t: real, m: int)
    requires CanRecord(st, ids, readings) && m % MINUTE_MS == 0 && 0 <= m && t <= MAX_SAFE_INTEGER as real
    requires CoverageWithin(BucketBefore(st, ids, m), ids, ElapsedTo(m, st.highWater))
    ensures CoverageWithin(BucketAfter(st, ids, readings, t, m), ids,
                           ElapsedTo(m, HighWaterAfter(st, ids, readings, t)))
  {
    hide CanRecord, BucketBefore, BucketAfter, NodeInterval, FleetInterval, HighWaterAfter, ElapsedTo, TimeShare;
    IntegrationView(st, ids, readings, t, m);
    MarkOnlyRises(st, ids, readings, t, m);
    forall id | id in ids
      ensures Entry(BucketAfter(st, ids, readings, t, m).nodeCoverageMs, id)
              <= ElapsedTo(m, HighWaterAfter(st, ids, readings, t))
    {
      NodeShareWithin(st, ids, readings, t, m, id);
    }
    FleetShareWithin(st, ids, readings, t, m);
  }

  lemma MarkOnlyRises(st: State, ids: seq<string>, readings: map<string, real>, t: real, m: int)
    ensures ElapsedTo(m, st.highWater) <= ElapsedTo(m, HighWaterAfter(st, ids, readings, t))
    ensures TimeShare(None, m) == 0.0
  {
  }

  lemma NodeShareWithin(st: State, ids: seq<string>, readings: map<string, real>, t: real, m: int, id: string)
    requires CanRecord(st, ids, readings) && 0 <= m && t <= MAX_SAFE_INTEGER as real && id in ids
    ensures ElapsedTo(m, st.highWater) + TimeShare(NodeInterval(st, readings, t, id), m)
         <= ElapsedTo(m, HighWaterAfter(st, ids, readings, t))
  {
    MarkOnlyRises(st, ids, readings, t, m);
    if NodeInterval(st, readings, t, id).Some? {
      NodeIntervalFacts(st, ids, readings, t, id, m);
      hide NodeInterval, CanRecord, FleetInterval;
      ShareWithin(st, t, m, HighWaterAfter(st, ids, readings, t));
    }
  }

  lemma FleetShareWithin(st: State, ids: seq<string>, readings: map<string, real>, t: real, m: int)
    requires CanRecord(st, ids, readings) && 0 <= m && t <= MAX_SAFE_INTEGER as real
    ensures ElapsedTo(m, st.highWater) + TimeShare(FleetInterval(st, ids, readings, t), m)
         <= ElapsedTo(m, HighWaterAfter(st, ids, readings, t))
  {
    MarkOnlyRises(st, ids, readings, t, m);
    if FleetInterval(st, ids, readings, t).Some? {
      FleetIntervalFacts(st, ids, readings, t, m);
      hide NodeInterval, CanRecord, FleetInterval;
      ShareWithin(st, t, m, HighWaterAfter(st, ids, readings, t));
    }
  }

  lemma ShareWithin(st: State, t: real, m: int, after: Option<real>)
    requires st.latestRecordAt.Some? && 0 <= m
    requires StartOf(st.latestRecordAt.value, st.highWater) < t
    requires after == if ValidHighWater(t) then Advance(st.highWater, t) else st.highWater
    requires t <= MAX_SAFE_INTEGER as real
    ensures ElapsedTo(m, st.highWater) + Overlap(m, StartOf(st.latestRecordAt.value, st.highWater), t)
            <= ElapsedTo(m, after)
  {
  }

  lemma BucketKept(st: State, ids: seq<string>, readings: map<string, real>, t: real, m: int)
    requires CanRecord(st, ids, readings) && m % MINUTE_MS == 0 && t <= MAX_SAFE_INTEGER as real
    ensures BucketOk(BucketAfter(st, ids, readings, t, m), ids)
    ensures m >= 0 ==>
              CoverageWithin(BucketAfter(st, ids, readings, t, m), ids,
                             ElapsedTo(m, HighWaterAfter(st, ids, readings, t)))
  {
    if m !in st.buckets { EmptyBucketOk(ids); }
    forall id | id in ids ensures NodeOk(BucketAfter(st, ids, readings, t, m), id) {
      NodeKept(st, ids, readings, t, m, id);
    }
    FleetKept(st, ids, readings, t, m);
    IntegrationView(st, ids, readings, t, m);
    if m >= 0 {
      CoverageKept(st, ids, readings, t, m);
    }
  }

  lemma EmptyBucketOk(ids: seq<string>)
    ensures BucketOk(EmptyBucket(ids), ids)
    ensures CoverageWithin(EmptyBucket(ids), ids, 0.0)
  {
    TotalNonnegative(ids, EmptyBucket(ids).nodeWh);
  }

  // --- One record keeps the invariant ---------------------------------------------------------

  lemma RollbackKeepsInv(st: State, ids: seq<string>, t: real)
    requires Inv(st, ids)
    ensures Inv(AfterRollback(st, t), ids)
  {
  }

  lemma IntegratedBucketsOk(st: State, ids: seq<string>, readings: map<string, real>, t: real)
    requires CanRecord(st, ids, readings) && t <= MAX_SAFE_INTEGER as real
    ensures BucketsOk(CreditFleet(st, ids, readings, t), ids, HighWaterAfter(st, ids, readings, t))
  {
    var after := CreditFleet(st, ids, readings, t);
    CreditFleetKeys(st, ids, readings, t);
    forall m | m in after
      ensures m <= MAX_SAFE_INTEGER && BucketOk(after[m], ids)
      ensures m >= 0 ==> CoverageWithin(after[m], ids, ElapsedTo(m, HighWaterAfter(st, ids, readings, t)))
    {
      BucketKept(st, ids, readings, t, m);
    }
  }

  /** A record that integrates covers the minute that ends at or after its timestamp. */
  lemma NewestMinuteCovered(st: State, ids: seq<string>, readings: map<string, real>, t: real, id: string)
    requires CanRecord(st, ids, readings) && id in ids && NodeInterval(st, readings, t, id).Some?
    ensures var m := MinuteEndingAtOrAfter(t);
            m in CreditFleet(st, ids, readings, t) && Covered(CreditFleet(st, ids, readings, t)[m], ids)
  {
    var m := MinuteEndingAtOrAfter(t);
    NodeIntervalFacts(st, ids, readings, t, id, m);
    var from := NodeInterval(st, readings, t, id).value.previous.atMs;
    LastMinuteTouched(from, t);
    CreditFleetKeys(st, ids, readings, t);
    IntegrationView(st, ids, readings, t, m);
    if m !in st.buckets { EmptyBucketOk(ids); }
    assert NodeOk(BucketBefore(st, ids, m), id);
    assert Entry(BucketAfter(st, ids, readings, t, m).nodeCoverageMs, id) > 0.0;
  }

  lemma LastMinuteTouched(from: real, t: real)
    requires from < t
    ensures MinuteEndingAtOrAfter(t) in Minutes(from, t)
    ensures Overlap(MinuteEndingAtOrAfter(t), from, t) > 0.0
  {
    var m := MinuteEndingAtOrAfter(t);
    assert m + MINUTE_MS > MinuteOf(from);
  }

  lemma IntegratesByNode(st: State, ids: seq<string>, readings: map<string, real>, t: real) returns (id: string)
    requires CanRecord(st, ids, readings) && Integrates(st, ids, readings, t)
    ensures id in ids && NodeInterval(st, readings, t, id).Some?
  {
    if FleetInterval(st, ids, readings, t).Some? {
      FleetIntervalFacts(st, ids, readings, t, 0);
      id := ids[0];
    } else {
      id :| id in ids && NodeInterval(st, readings, t, id).Some?;
    }
  }

  /** Without an interval nothing is credited. */
  lemma {:induction false} NothingCredited(st: State, ids: seq<string>, readings: map<string, real>, t: real, k: nat)
    requires k <= |ids| && !Integrates(st, ids, readings, t)
    ensures CreditNodes(st, ids, readings, t, k) == st.buckets
  {
    if k > 0 {
      NothingCredited(st, ids, readings, t, k - 1);
      assert ids[k - 1] in ids;
    }
  }

  lemma CoveredBeforeHighWater(buckets: Buckets, ids: seq<string>, highWater: Option<real>, m: int)
    requires BucketsOk(buckets, ids, highWater) && m in buckets && m >= 0 && Covered(buckets[m], ids)
    ensures highWater.Some? && (m as real) < highWater.value && m <= MinuteEndingAtOrAfter(highWater.value)
  {
    assert CoverageWithin(buckets[m], ids, ElapsedTo(m, highWater));
    assert m < MinuteEndingAtOrAfter(highWater.value) + MINUTE_MS;
  }

  lemma IntegratedBacked(st: State, ids: seq<string>, readings: map<string, real>, t: real)
    requires CanRecord(st, ids, readings) && t <= MAX_SAFE_INTEGER as real
    ensures HighWaterBacked(CreditFleet(st, ids, readings, t), ids, HighWaterAfter(st, ids, readings, t))
  {
    var after, highWater := CreditFleet(st, ids, readings, t), HighWaterAfter(st, ids, readings, t);
    IntegratedBucketsOk(st, ids, readings, t);
    if Integrates(st, ids, readings, t) {
      var id := IntegratesByNode(st, ids, readings, t);
      NodeIntervalFacts(st, ids, readings, t, id, 0);
      NewestMinuteCovered(st, ids, readings, t, id);
      assert st.highWater.Some? ==> st.highWater.value < t;
      forall m | m in after && m >= 0 && Covered(after[m], ids) ensures highWater == Some(t) {
        CoveredBeforeHighWater(after, ids, highWater, m);
        assert t >= 0.0;
      }
    } else {
      NothingCredited(st, ids, readings, t, |ids|);
      assert after == st.buckets && highWater == st.highWater;
    }
  }

  lemma IntegratedKeepsInv(st: State, ids: seq<string>, readings: map<string, real>, t: real)
    requires CanRecord(st, ids, readings) && t <= MAX_SAFE_INTEGER as real
    ensures Inv(Integrated(st, ids, readings, t).(latestRecordAt := Some(t), dirty := true), ids)
  {
    IntegratedBucketsOk(st, ids, readings, t);
    IntegratedBacked(st, ids, readings, t);
    var after := Integrated(st, ids, readings, t);
    if FullFleet(ids, readings) {
      TotalSame(ids, readings, Watts(after.baselines));
    }
  }

  lemma {:induction false} TotalSame(ids: seq<string>, a: map<string, real>, b: map<string, real>)
    requires forall id :: id in ids ==> Entry(a, id) == Entry(b, id)
    ensures Total(ids, a) == Total(ids, b)
  {
    if ids != [] {
      TotalSame(ids[..|ids| - 1], a, b);
    }
  }

  /** Counting tokens touches no coverage and no energy. */
  lemma TokensKeepInv(st: State, ids: seq<string>, tokens: Option<TokenReading>, t: real, covered: bool)
    requires Inv(st, ids) && t <= MAX_SAFE_INTEGER as real
    requires tokens.Some? ==> ValidTokens(tokens.value, ids)
    ensures Inv(TokensRecorded(st, ids, tokens, t, covered), ids)
  {
    EmptyBucketOk(ids);
    var after := TokensRecorded(st, ids, tokens, t, covered);
    if after.buckets != st.buckets {
      var m, b := MinuteOf(t), BucketAt(st.buckets, MinuteOf(t), ids);
      var delta := tokens.value.totalOutputTokens - st.tokenCounter.value.source.totalOutputTokens;
      TokensAddedOk(b, ids, delta, covered);
      assert after.buckets == st.buckets[m := TokensAdded(b, delta, covered)];
      CoverageUntouched(st.buckets, ids, st.highWater, m, TokensAdded(b, delta, covered));
    }
  }

  lemma TokensAddedOk(b: Bucket, ids: seq<string>, delta: int, covered: bool)
    requires BucketOk(b, ids) && 0 <= delta
    ensures BucketOk(TokensAdded(b, delta, covered), ids)
  {
    var b' := TokensAdded(b, delta, covered);
    forall id | id in ids ensures NodeOk(b', id) {
      assert NodeOk(b, id);
    }
  }

  predicate SameCoverage(b: Bucket, b': Bucket) {
    b.nodeCoverageMs == b'.nodeCoverageMs && b.fleetCoverageMs == b'.fleetCoverageMs
  }

  lemma CoverageUntouched(buckets: Buckets, ids: seq<string>, highWater: Option<real>, m: int, b: Bucket)
    requires BucketsOk(buckets, ids, highWater) && HighWaterBacked(buckets, ids, highWater)
    requires m % MINUTE_MS == 0 && m <= MAX_SAFE_INTEGER && BucketOk(b, ids)
    requires SameCoverage(BucketAt(buckets, m, ids), b)
    ensures BucketsOk(buckets[m := b], ids, highWater) && HighWaterBacked(buckets[m := b], ids, highWater)
  {
    EmptyBucketOk(ids);
    var after := buckets[m := b];
    forall n | n in after
      ensures Covered(after[n], ids) <==> n in buckets && Covered(buckets[n], ids)
    {
      assert Covered(after[n], ids) <==> Covered(BucketAt(buckets, n, ids), ids);
    }
    if m >= 0 {
      var before := BucketAt(buckets, m, ids);
      assert CoverageWithin(before, ids, ElapsedTo(m, highWater));
      assert CoverageWithin(b, ids, ElapsedTo(m, highWater));
    }
    assert BucketsOk(after, ids, highWater);
  }

  /** Dropping old buckets keeps the invariant, as long as nothing newer than a kept bucket goes. */
  lemma KeptBacked(buckets: Buckets, ids: seq<string>, highWater: Option<real>, keep: set<int>)
    requires BucketsOk(buckets, ids, highWater) && HighWaterBacked(buckets, ids, highWater)
    requires forall m, n :: m in keep && n in buckets && n >= m ==> n in keep
    ensures BucketsOk(Kept(buckets, keep), ids, highWater) && HighWaterBacked(Kept(buckets, keep), ids, highWater)
  {
    forall m | m in Kept(buckets, keep) && m >= 0 && Covered(buckets[m], ids)
      ensures highWater.Some? && MinuteEndingAtOrAfter(highWater.value) in Kept(buckets, keep)
    {
      CoveredBeforeHighWater(buckets, ids, highWater, m);
    }
  }

  lemma SurvivorsUpwardClosed(starts: set<int>, cutoff: int, m: int, n: int)
    requires m in Survivors(starts, cutoff) && n in starts && n >= m
    ensures n in Survivors(starts, cutoff)
  {
    SubsetSize(Newer(starts, n), Newer(starts, m));
  }

  lemma PruneKeepsInv(st: State, ids: seq<string>, now: real)
    requires Inv(st, ids)
    ensures Inv(Pruned(st, now), ids)
  {
    var cutoff := AlignedWindowCutoff(now, RETENTION_MS);
    var keep := Survivors(st.buckets.Keys, cutoff);
    forall m, n | m in keep && n in st.buckets && n >= m ensures n in keep {
      SurvivorsUpwardClosed(st.buckets.Keys, cutoff, m, n);
    }
    KeptBacked(st.buckets, ids, st.highWater, keep);
  }

  lemma CountedKeepsInv(st: State, ids: seq<string>, readings: map<string, real>, tokens: Option<TokenReading>, t: real)
    requires CanRecord(st, ids, readings) && t <= MAX_SAFE_INTEGER as real
    requires tokens.Some? ==> ValidTokens(tokens.value, ids)
    ensures Inv(Counted(st, ids, readings, tokens, t), ids)
  {
    var start := AfterRollback(st, t);
    RollbackKeepsInv(st, ids, t);
    IntegratedKeepsInv(start, ids, readings, t);
    var integrated := Integrated(start, ids, readings, t).(latestRecordAt := Some(t), dirty := true);
    TokensKeepInv(integrated, ids, tokens, t, FleetInterval(start, ids, readings, t).Some?);
  }

  /**
    One call of `record` keeps the invariant, on any clock up to the largest safe integer: with
    gaps, steps back, repeated and negative timestamps, and whatever telemetry is missing.
   */
  lemma RecordKeepsInv(st: State, ids: seq<string>, readings: map<string, real>, tokens: Option<TokenReading>, t: real)
    requires CanRecord(st, ids, readings) && t <= MAX_SAFE_INTEGER as real
    requires tokens.Some? ==> ValidTokens(tokens.value, ids)
    ensures Inv(Recorded(st, ids, readings, tokens, t), ids)
  {
    if st.latestRecordAt != Some(t) {
      CountedKeepsInv(st, ids, readings, tokens, t);
      PruneKeepsInv(Counted(st, ids, readings, tokens, t), ids, t);
    }
  }
}
