/**
  What `record` puts into a bucket beyond the bounds that the validator checks: full-fleet energy that splits
  into the nodes' shares, at most all but one node covered outside full-fleet time, tokens that add up.
 */
module EnergyFullFleet {
  import opened Options
  import opened EnergyArithmetic
  import opened EnergyBuckets
  import opened EnergyState
  import opened EnergyInvariant
  import opened RealArithmetic

  // --- Full-fleet energy ------------------------------------------------------------------------

  /** A node's energy in watt-milliseconds. */
  function NodeEnergy(b: Bucket, id: string): real {
    Entry(b.nodeWh, id) * MS_PER_HOUR
  }

  /** The node drew `share` in full-fleet time, and the rest of its energy in the rest of its time. */
  predicate SplitsNode(b: Bucket, id: string, share: real) {
    && EnergyWithin(MIN_NODE_WATTS, MAX_NODE_WATTS, b.fleetCoverageMs, share)
    && EnergyWithin(MIN_NODE_WATTS, MAX_NODE_WATTS, Entry(b.nodeCoverageMs, id) - b.fleetCoverageMs,
                    NodeEnergy(b, id) - share)
  }

  predicate Splits(b: Bucket, ids: seq<string>, shares: map<string, real>) {
    (forall id :: id in ids ==> SplitsNode(b, id, Entry(shares, id))) && b.fleetWattMs == Total(ids, shares)
  }

  /** The fleet's energy is made of what each node could have drawn in full-fleet time. */
  ghost predicate Splittable(b: Bucket, ids: seq<string>) {
    exists shares :: Splits(b, ids, shares)
  }

  /** Outside full-fleet time never more than all nodes but one were covered. */
  predicate Apart(b: Bucket, ids: seq<string>, elapsed: real) {
    ids != [] ==> Total(ids, b.nodeCoverageMs) - b.fleetCoverageMs <= (|ids| - 1) as real * elapsed
  }

  /** Every covered token was also counted, except where the total would have passed the largest safe integer. */
  predicate TokensFit(b: Bucket) {
    b.coveredOutputTokens <= b.outputTokens || b.outputTokens + b.coveredOutputTokens > MAX_SAFE_INTEGER
  }

  /** There is a fleet, and something was put into the bucket. */
  predicate NotEmpty(b: Bucket, ids: seq<string>) {
    ids != [] && (Covered(b, ids) || b.outputTokens > 0)
  }

  ghost predicate Made(b: Bucket, ids: seq<string>) {
    Splittable(b, ids) && TokensFit(b) && NotEmpty(b, ids)
  }

  ghost predicate AllMade(buckets: Buckets, ids: seq<string>, highWater: Option<real>) {
    forall m :: m in buckets ==> Made(buckets[m], ids) && (m >= 0 ==> Apart(buckets[m], ids, ElapsedTo(m, highWater)))
  }

  // --- What follows from a split ------------------------------------------------------------------

  /** Node-milliseconds covered outside full-fleet time. */
  function PartialTime(b: Bucket, ids: seq<string>): real {
    Total(ids, b.nodeCoverageMs) - b.fleetCoverageMs * |ids| as real
  }

  /** Watt-milliseconds of the nodes outside full-fleet time. */
  function PartialEnergy(b: Bucket, ids: seq<string>): real {
    MS_PER_HOUR * Total(ids, b.nodeWh) - b.fleetWattMs
  }

  predicate FleetAccounted(b: Bucket, ids: seq<string>) {
    EnergyWithin(MIN_NODE_WATTS, MAX_NODE_WATTS, PartialTime(b, ids), PartialEnergy(b, ids))
  }

  /** When a bucket's coverage is all full-fleet, its fleet energy equals the sum of its nodes' energies. */
  lemma FullCoverageMeansEqualEnergy(b: Bucket, ids: seq<string>)
    requires FleetAccounted(b, ids)
    requires forall id :: id in ids ==> Entry(b.nodeCoverageMs, id) == b.fleetCoverageMs
    ensures b.fleetWattMs == MS_PER_HOUR * Total(ids, b.nodeWh)
  {
    TotalConstant(ids, b.nodeCoverageMs, b.fleetCoverageMs);
  }

  lemma {:induction false} TotalConstant(ids: seq<string>, table: map<string, real>, c: real)
    requires forall id :: id in ids ==> Entry(table, id) == c
    ensures Total(ids, table) == c * |ids| as real
  {
    if ids != [] {
      TotalConstant(ids[..|ids| - 1], table, c);
      Undistribute(c, (|ids| - 1) as real, 1.0);
    }
  }

  lemma {:induction false} TotalsWithin(ids: seq<string>, times: map<string, real>, energies: map<string, real>)
    requires forall id :: id in ids ==>
               EnergyWithin(MIN_NODE_WATTS, MAX_NODE_WATTS, Entry(times, id), Entry(energies, id))
    ensures EnergyWithin(MIN_NODE_WATTS, MAX_NODE_WATTS, Total(ids, times), Total(ids, energies))
  {
    if ids != [] {
      TotalsWithin(ids[..|ids| - 1], times, energies);
    }
  }

  /** The energy that the fleet's counter lacks is what the nodes drew outside full-fleet time. */
  lemma SplitIsAccounted(b: Bucket, ids: seq<string>, shares: map<string, real>)
    requires Splits(b, ids, shares)
    ensures FleetAccounted(b, ids)
  {
    hide Total;
    var times := map id | id in ids :: Entry(b.nodeCoverageMs, id) - b.fleetCoverageMs;
    var energies := map id | id in ids :: NodeEnergy(b, id) - Entry(shares, id);
    forall id | id in ids ensures EnergyWithin(MIN_NODE_WATTS, MAX_NODE_WATTS, Entry(times, id), Entry(energies, id)) {
      assert SplitsNode(b, id, Entry(shares, id));
    }
    TotalsWithin(ids, times, energies);
    hide EnergyWithin;
    TotalTimes(b, ids, times);
    TotalEnergies(b, ids, energies, shares);
  }

  lemma TotalTimes(b: Bucket, ids: seq<string>, times: map<string, real>)
    requires forall id :: id in ids ==> Entry(times, id) == Entry(b.nodeCoverageMs, id) - b.fleetCoverageMs
    ensures Total(ids, times) == PartialTime(b, ids)
  {
    var full := map id | id in ids :: b.fleetCoverageMs;
    forall id | id in ids ensures Entry(full, id) == b.fleetCoverageMs {
    }
    hide *;
    TotalAdds(ids, times, full, b.nodeCoverageMs);
    PartialTimeIs(b, ids, full);
  }

  lemma PartialTimeIs(b: Bucket, ids: seq<string>, full: map<string, real>)
    requires forall id :: id in ids ==> Entry(full, id) == b.fleetCoverageMs
    ensures PartialTime(b, ids) == Total(ids, b.nodeCoverageMs) - Total(ids, full)
  {
    TotalConstant(ids, full, b.fleetCoverageMs);
  }

  lemma TotalEnergies(b: Bucket, ids: seq<string>, energies: map<string, real>, shares: map<string, real>)
    requires forall id :: id in ids ==> Entry(energies, id) == NodeEnergy(b, id) - Entry(shares, id)
    ensures Total(ids, energies) == MS_PER_HOUR * Total(ids, b.nodeWh) - Total(ids, shares)
  {
    var nodes := map id | id in ids :: NodeEnergy(b, id);
    forall id | id in ids
      ensures Entry(nodes, id) == NodeEnergy(b, id)
      ensures Entry(b.nodeWh, id) == Entry(map[], id) + Entry(nodes, id) / MS_PER_HOUR
    {
    }
    TotalOfNone(ids);
    hide *;
    TotalAdds(ids, energies, shares, nodes);
    EnergyGrows(ids, map[], b.nodeWh, nodes);
  }

  lemma TotalOfNone(ids: seq<string>)
    ensures MS_PER_HOUR * Total(ids, map[]) == 0.0
  {
    TotalConstant(ids, map[], 0.0);
  }

  /** In a fleet of one, the fleet's figures are the node's. */
  lemma FleetOfOne(b: Bucket, id: string, elapsed: real)
    requires BucketOk(b, [id]) && Splittable(b, [id]) && Apart(b, [id], elapsed)
    ensures b.fleetCoverageMs == Entry(b.nodeCoverageMs, id) && b.fleetWattMs == NodeEnergy(b, id)
  {
    var shares :| Splits(b, [id], shares);
    SplitIsAccounted(b, [id], shares);
    assert NodeOk(b, id);
    TotalOfOne(id, b.nodeCoverageMs);
    TotalOfOne(id, b.nodeWh);
  }

  lemma TotalOfOne(id: string, table: map<string, real>)
    ensures Total([id], table) == Entry(table, id)
  {
    assert [id][..0] == [];
  }

  // --- Which energies split -----------------------------------------------------------------------

  /** The least and the most that a node can have drawn in full-fleet time. */
  function LeastShare(b: Bucket, id: string): real {
    Max(MIN_NODE_WATTS * b.fleetCoverageMs,
        NodeEnergy(b, id) - MAX_NODE_WATTS * (Entry(b.nodeCoverageMs, id) - b.fleetCoverageMs))
  }

  function MostShare(b: Bucket, id: string): real {
    Min(MAX_NODE_WATTS * b.fleetCoverageMs,
        NodeEnergy(b, id) - MIN_NODE_WATTS * (Entry(b.nodeCoverageMs, id) - b.fleetCoverageMs))
  }

  function LeastShares(b: Bucket, ids: seq<string>): map<string, real> {
    map id | id in ids :: LeastShare(b, id)
  }

  function MostShares(b: Bucket, ids: seq<string>): map<string, real> {
    map id | id in ids :: MostShare(b, id)
  }

  /**
    A bucket splits exactly when its fleet energy lies between what its nodes must and what they can have drawn
    together.
   */
  lemma SplittableIff(b: Bucket, ids: seq<string>)
    requires BucketOk(b, ids)
    ensures Splittable(b, ids) <==> Total(ids, LeastShares(b, ids)) <= b.fleetWattMs <= Total(ids, MostShares(b, ids))
  {
    var least, most := LeastShares(b, ids), MostShares(b, ids);
    if Splittable(b, ids) {
      var shares :| Splits(b, ids, shares);
      forall id | id in ids ensures LeastShare(b, id) <= Entry(shares, id) <= MostShare(b, id) {
        ShareBetween(b, id, Entry(shares, id));
      }
      TotalMonotone(ids, least, shares);
      TotalMonotone(ids, shares, most);
    }
    if Total(ids, least) <= b.fleetWattMs <= Total(ids, most) {
      var shares := SharesBetween(b, ids, b.fleetWattMs);
      assert Splits(b, ids, shares);
    }
  }

  lemma SharesBetween(b: Bucket, ids: seq<string>, energy: real) returns (shares: map<string, real>)
    requires BucketOk(b, ids)
    requires Total(ids, LeastShares(b, ids)) <= energy <= Total(ids, MostShares(b, ids))
    ensures Total(ids, shares) == energy && forall id :: id in ids ==> SplitsNode(b, id, Entry(shares, id))
  {
    hide Total, LeastShare, MostShare, Trapezoid, SplitsNode, NodeOk;
    var least, most := LeastShares(b, ids), MostShares(b, ids);
    var f := FractionFor(Total(ids, least), energy, Total(ids, most));
    shares := map id | id in ids :: Trapezoid(LeastShare(b, id), MostShare(b, id), f, 1.0);
    TrapezoidsAddUp(ids, least, most, shares, f, 1.0);
    forall id | id in ids ensures SplitsNode(b, id, Entry(shares, id)) {
      ShareAtFraction(b, id, f);
    }
  }

  lemma FractionFor(low: real, value: real, high: real) returns (f: real)
    requires low <= value <= high
    ensures 0.0 <= f <= 1.0 && Trapezoid(low, high, f, 1.0) == value
  {
    if low < high {
      f := (value - low) / (high - low);
      FractionBounded(value - low, high - low);
      assert f * (high - low) == value - low;
    } else {
      f := 0.0;
    }
  }

  lemma ShareAtFraction(b: Bucket, id: string, f: real)
    requires NodeOk(b, id) && 0.0 <= f <= 1.0
    ensures SplitsNode(b, id, Trapezoid(LeastShare(b, id), MostShare(b, id), f, 1.0))
  {
    LeastIsLess(b, id);
    hide *;
    var least, most := LeastShare(b, id), MostShare(b, id);
    TrapezoidBetween(least, most, f);
    ShareBetween(b, id, Trapezoid(least, most, f, 1.0));
  }

  lemma TrapezoidBetween(p: real, c: real, f: real)
    requires p <= c && 0.0 <= f <= 1.0
    ensures p <= Trapezoid(p, c, f, 1.0) <= c
  {
    Scaled(c - p, f, (c - p) * f);
  }

  lemma LeastIsLess(b: Bucket, id: string)
    requires NodeOk(b, id)
    ensures LeastShare(b, id) <= MostShare(b, id)
  {
  }

  lemma ShareBetween(b: Bucket, id: string, share: real)
    ensures SplitsNode(b, id, share) <==> LeastShare(b, id) <= share <= MostShare(b, id)
  {
  }

  // --- One record ---------------------------------------------------------------------------------

  lemma NodeSplitGrows(b: Bucket, b': Bucket, id: string, share: real, fleet: bool, time: real, energy: real)
    requires SplitsNode(b, id, share) && EnergyWithin(MIN_NODE_WATTS, MAX_NODE_WATTS, time, energy)
    requires b'.fleetCoverageMs == b.fleetCoverageMs + if fleet then time else 0.0
    requires Entry(b'.nodeCoverageMs, id) == Entry(b.nodeCoverageMs, id) + time
    requires Entry(b'.nodeWh, id) == Entry(b.nodeWh, id) + energy / MS_PER_HOUR
    ensures SplitsNode(b', id, if fleet then share + energy else share)
  {
  }

  lemma ShareWithinBounds(st: State, ids: seq<string>, readings: map<string, real>, t: real, m: int, id: string)
    requires CanRecord(st, ids, readings) && id in ids
    ensures var r := NodeInterval(st, readings, t, id);
            TimeShare(r, m) >= 0.0 && EnergyWithin(MIN_NODE_WATTS, MAX_NODE_WATTS, TimeShare(r, m), EnergyShare(r, m))
  {
    if NodeInterval(st, readings, t, id).Some? { NodeIntervalFacts(st, ids, readings, t, id, m); }
  }

  /** Full-fleet energy joins the shares node by node, any other energy leaves them alone. */
  lemma CreditKeepsSplit(st: State, ids: seq<string>, readings: map<string, real>, t: real, m: int)
    requires CanRecord(st, ids, readings) && m % MINUTE_MS == 0
    requires Splittable(BucketBefore(st, ids, m), ids)
    ensures Splittable(BucketAfter(st, ids, readings, t, m), ids)
  {
    hide CanRecord, BucketBefore, BucketAfter, NodeInterval, FleetInterval, Total, EnergyWithin, SplitsNode,
         EnergyShare, Overlap;
    var b, b' := BucketBefore(st, ids, m), BucketAfter(st, ids, readings, t, m);
    var f := FleetInterval(st, ids, readings, t);
    var shares :| Splits(b, ids, shares);
    var energies := NodeEnergies(st, ids, readings, t, m);
    IntegrationView(st, ids, readings, t, m);
    var grown := if f.Some? then map id | id in ids :: Entry(shares, id) + Entry(energies, id) else shares;
    if f.Some? {
      FleetIntervalFacts(st, ids, readings, t, m);
      TotalAdds(ids, shares, energies, grown);
    } else {
      NoShare(m);
    }
    forall id | id in ids ensures SplitsNode(b', id, Entry(grown, id)) {
      ShareWithinBounds(st, ids, readings, t, m, id);
      var time := TimeShare(NodeInterval(st, readings, t, id), m);
      NodeSplitGrows(b, b', id, Entry(shares, id), f.Some?, time, Entry(energies, id));
    }
    assert Splits(b', ids, grown);
  }

  lemma NoShare(m: int)
    ensures TimeShare(None, m) == 0.0 && EnergyShare(None, m) == 0.0
  {
  }

  lemma {:induction false} TotalOfAllButOne(ids: seq<string>, table: map<string, real>, limit: real, id: string)
    requires id in ids && Entry(table, id) == 0.0 && limit >= 0.0
    requires forall i :: i in ids ==> 0.0 <= Entry(table, i) <= limit
    ensures Total(ids, table) <= (|ids| - 1) as real * limit
  {
    var rest, last := ids[..|ids| - 1], ids[|ids| - 1];
    if last == id {
      TotalAtMost(rest, table, limit);
    } else {
      TotalOfAllButOne(rest, table, limit, id);
      Undistribute(limit, (|rest| - 1) as real, 1.0);
    }
  }

  lemma {:induction false} TotalAtMost(ids: seq<string>, table: map<string, real>, limit: real)
    requires forall id :: id in ids ==> Entry(table, id) <= limit
    ensures Total(ids, table) <= |ids| as real * limit
  {
    if ids != [] {
      TotalAtMost(ids[..|ids| - 1], table, limit);
      Undistribute(limit, (|ids| - 1) as real, 1.0);
    }
  }

  lemma ApartGrows(b: Bucket, b': Bucket, ids: seq<string>, elapsed: real, elapsed': real, time: real, fleet: bool,
                   added: real)
    requires ids != [] && Apart(b, ids, elapsed) && elapsed + time <= elapsed' && time >= 0.0
    requires b'.fleetCoverageMs == b.fleetCoverageMs + if fleet then time else 0.0
    requires Total(ids, b'.nodeCoverageMs) == Total(ids, b.nodeCoverageMs) + added
    requires if fleet then added == time * |ids| as real else added <= (|ids| - 1) as real * time
    ensures Apart(b', ids, elapsed')
  {
    hide Total;
    var n := (|ids| - 1) as real;
    assert |ids| as real == n + 1.0;
    ApartSums(Total(ids, b.nodeCoverageMs), b.fleetCoverageMs, n, elapsed, elapsed', time, fleet, added);
  }

  lemma ApartSums(total: real, fleetTime: real, n: real, elapsed: real, elapsed': real, time: real, fleet: bool,
                  added: real)
    requires n >= 0.0 && total - fleetTime <= n * elapsed && elapsed + time <= elapsed'
    requires if fleet then added == time * (n + 1.0) else added <= n * time
    ensures (total + added) - (fleetTime + if fleet then time else 0.0) <= n * elapsed'
  {
    ApartBounds(n, time, elapsed, elapsed');
  }

  lemma ApartBounds(n: real, time: real, elapsed: real, elapsed': real)
    requires n >= 0.0 && elapsed + time <= elapsed'
    ensures n * elapsed + n * time <= n * elapsed'
    ensures time * (n + 1.0) == n * time + time
  {
    assert n * (elapsed' - (elapsed + time)) >= 0.0;
  }

  /** All nodes add the same time to a minute, or at least one of them adds nothing. */
  lemma AddedTimes(st: State, ids: seq<string>, readings: map<string, real>, t: real, m: int, time: real)
    requires CanRecord(st, ids, readings) && ids != [] && time >= 0.0
    requires forall id :: id in ids ==>
               Entry(NodeTimes(st, ids, readings, t, m), id)
                 == if NodeInterval(st, readings, t, id).Some? then time else 0.0
    ensures var added := Total(ids, NodeTimes(st, ids, readings, t, m));
            if FleetInterval(st, ids, readings, t).Some? then added == time * |ids| as real
            else added <= (|ids| - 1) as real * time
  {
    hide Total, CanRecord, FleetInterval, NodeInterval, NodeTimes;
    var times := NodeTimes(st, ids, readings, t, m);
    FleetIntervalIff(st, ids, readings, t);
    if FleetInterval(st, ids, readings, t).Some? {
      TotalConstant(ids, times, time);
    } else {
      var id :| id in ids && NodeInterval(st, readings, t, id).None?;
      TotalOfAllButOne(ids, times, time, id);
    }
  }

  /** The time that a record adds to a minute, if it integrates anything. */
  lemma CreditKeepsApart(st: State, ids: seq<string>, readings: map<string, real>, t: real, m: int)
    requires CanRecord(st, ids, readings) && m % MINUTE_MS == 0 && 0 <= m && t <= MAX_SAFE_INTEGER as real
    requires Apart(BucketBefore(st, ids, m), ids, ElapsedTo(m, st.highWater))
    ensures Apart(BucketAfter(st, ids, readings, t, m), ids, ElapsedTo(m, HighWaterAfter(st, ids, readings, t)))
  {
    if !Integrates(st, ids, readings, t) {
      NothingCredited(st, ids, readings, t, |ids|);
    } else if ids != [] {
      hide *;
      var time := NewTime(st, ids, readings, t, m);
      NewTimeFitsBelowMark(st, ids, readings, t, m);
      AddedTimes(st, ids, readings, t, m, time);
      EnergyTotals(st, ids, readings, t, m);
      FleetTimeGrows(st, ids, readings, t, m, time);
      ApartGrows(BucketBefore(st, ids, m), BucketAfter(st, ids, readings, t, m), ids,
                 ElapsedTo(m, st.highWater), ElapsedTo(m, HighWaterAfter(st, ids, readings, t)), time,
                 FleetInterval(st, ids, readings, t).Some?, Total(ids, NodeTimes(st, ids, readings, t, m)));
    }
  }

  lemma FleetTimeGrows(st: State, ids: seq<string>, readings: map<string, real>, t: real, m: int, time: real)
    requires CanRecord(st, ids, readings) && m % MINUTE_MS == 0
    requires FleetInterval(st, ids, readings, t).Some? ==> TimeShare(FleetInterval(st, ids, readings, t), m) == time
    ensures BucketAfter(st, ids, readings, t, m).fleetCoverageMs
         == BucketBefore(st, ids, m).fleetCoverageMs + if FleetInterval(st, ids, readings, t).Some? then time else 0.0
  {
    hide CanRecord, FleetInterval, BucketBefore, BucketAfter;
    IntegrationView(st, ids, readings, t, m);
  }

  /** What each interval of a record spends in a minute; all of them start and end together. */
  lemma NewTime(st: State, ids: seq<string>, readings: map<string, real>, t: real, m: int) returns (time: real)
    requires CanRecord(st, ids, readings) && Integrates(st, ids, readings, t)
    ensures st.latestRecordAt.Some? && StartOf(st.latestRecordAt.value, st.highWater) < t
    ensures time == Overlap(m, StartOf(st.latestRecordAt.value, st.highWater), t) && time >= 0.0
    ensures forall id :: id in ids ==>
              Entry(NodeTimes(st, ids, readings, t, m), id)
                == if NodeInterval(st, readings, t, id).Some? then time else 0.0
    ensures var f := FleetInterval(st, ids, readings, t);
            f.Some? ==> TimeShare(f, m) == time && forall id :: id in ids ==> NodeInterval(st, readings, t, id).Some?
  {
    hide CanRecord, NodeInterval, FleetInterval, Overlap, StartOf;
    var some := IntegratesByNode(st, ids, readings, t);
    NodeIntervalFacts(st, ids, readings, t, some, m);
    time := TimeShare(NodeInterval(st, readings, t, some), m);
    forall id | id in ids && NodeInterval(st, readings, t, id).Some?
      ensures TimeShare(NodeInterval(st, readings, t, id), m) == time
    {
      NodeIntervalFacts(st, ids, readings, t, id, m);
    }
    if FleetInterval(st, ids, readings, t).Some? { FleetIntervalFacts(st, ids, readings, t, m); }
  }

  lemma NewTimeFitsBelowMark(st: State, ids: seq<string>, readings: map<string, real>, t: real, m: int)
    requires Integrates(st, ids, readings, t) && st.latestRecordAt.Some? && 0 <= m && t <= MAX_SAFE_INTEGER as real
    requires StartOf(st.latestRecordAt.value, st.highWater) < t
    ensures ElapsedTo(m, st.highWater) + Overlap(m, StartOf(st.latestRecordAt.value, st.highWater), t)
         <= ElapsedTo(m, HighWaterAfter(st, ids, readings, t))
  {
    ShareWithin(st, t, m, HighWaterAfter(st, ids, readings, t));
  }

  lemma EmptySplits(ids: seq<string>, elapsed: real)
    requires elapsed >= 0.0
    ensures Splittable(EmptyBucket(ids), ids) && Apart(EmptyBucket(ids), ids, elapsed) && TokensFit(EmptyBucket(ids))
  {
    var b := EmptyBucket(ids);
    TotalConstant(ids, b.nodeWh, 0.0);
    TotalConstant(ids, b.nodeCoverageMs, 0.0);
    assert Splits(b, ids, b.nodeWh);
    if ids != [] { ApartBounds((|ids| - 1) as real, 0.0, 0.0, elapsed); }
  }

  /** A bucket that a record makes has been covered. */
  lemma {:induction false} NodesMakeCovered(st: State, ids: seq<string>, readings: map<string, real>, t: real, k: nat,
                                            m: int)
    returns (id: string)
    requires k <= |ids| && m in CreditNodes(st, ids, readings, t, k).Keys && m !in st.buckets
    ensures id in ids && NodeInterval(st, readings, t, id).Some?
    ensures m in Minutes(NodeInterval(st, readings, t, id).value.previous.atMs, t)
  {
    hide NodeInterval, Minutes;
    assert k > 0;
    hide CreditNodes;
    CreditNodeKeys(st, ids, readings, t, k - 1);
    id := ids[k - 1];
    if m in CreditNodes(st, ids, readings, t, k - 1).Keys {
      id := NodesMakeCovered(st, ids, readings, t, k - 1, m);
    }
  }

  lemma TouchedOverlaps(m: int, from: real, to: real)
    requires m in Minutes(from, to)
    ensures Overlap(m, from, to) > 0.0
  {
  }

  lemma CreditMakesCovered(st: State, ids: seq<string>, readings: map<string, real>, t: real, m: int)
    requires CanRecord(st, ids, readings) && m in CreditFleet(st, ids, readings, t) && m !in st.buckets
    requires m % MINUTE_MS == 0
    ensures Covered(CreditFleet(st, ids, readings, t)[m], ids)
  {
    hide CanRecord, NodeInterval, FleetInterval, CreditNodes, Minutes, Overlap, Credited, CreditFleet;
    var id := CreditTouches(st, ids, readings, t, m);
    TouchedOverlaps(m, NodeInterval(st, readings, t, id).value.previous.atMs, t);
    IntegrationView(st, ids, readings, t, m);
    NothingYet(st, ids, m, id);
    assert Entry(BucketAfter(st, ids, readings, t, m).nodeCoverageMs, id) > 0.0;
  }

  lemma NothingYet(st: State, ids: seq<string>, m: int, id: string)
    requires m !in st.buckets && id in ids
    ensures Entry(BucketBefore(st, ids, m).nodeCoverageMs, id) == 0.0
  {
  }

  /** Some node's interval touches a minute that a record makes; the fleet's touches no other minutes. */
  lemma CreditTouches(st: State, ids: seq<string>, readings: map<string, real>, t: real, m: int) returns (id: string)
    requires CanRecord(st, ids, readings) && m in CreditFleet(st, ids, readings, t) && m !in st.buckets
    ensures id in ids && NodeInterval(st, readings, t, id).Some?
    ensures m in Minutes(NodeInterval(st, readings, t, id).value.previous.atMs, t)
  {
    hide CanRecord, NodeInterval, FleetInterval, CreditNodes, Minutes, Credited;
    var f := FleetInterval(st, ids, readings, t);
    if f.Some? {
      CreditedKeys(CreditNodes(st, ids, readings, t, |ids|), ids, Fleet, f.value, f.value.previous.atMs, t);
      FleetIntervalFacts(st, ids, readings, t, m);
    }
    if m in CreditNodes(st, ids, readings, t, |ids|).Keys {
      id := NodesMakeCovered(st, ids, readings, t, |ids|, m);
    } else {
      id := ids[0];
      assert id in ids;
    }
  }

  lemma CreditKeepsMade(st: State, ids: seq<string>, readings: map<string, real>, t: real)
    requires CanRecord(st, ids, readings) && AllMade(st.buckets, ids, st.highWater) && t <= MAX_SAFE_INTEGER as real
    ensures AllMade(CreditFleet(st, ids, readings, t), ids, HighWaterAfter(st, ids, readings, t))
  {
    hide Splittable, Apart, CanRecord, CreditFleet, NotEmpty, HighWaterAfter;
    var credited := CreditFleet(st, ids, readings, t);
    CreditedAreMinutes(st, ids, readings, t);
    forall m | m in credited
      ensures Made(credited[m], ids)
      ensures (m >= 0 ==> Apart(credited[m], ids, ElapsedTo(m, HighWaterAfter(st, ids, readings, t))))
    {
      EmptySplits(ids, ElapsedTo(m, st.highWater));
      CreditKeepsSplit(st, ids, readings, t, m);
      CreditKeepsTokens(st, ids, readings, t, m);
      if m >= 0 { CreditKeepsApart(st, ids, readings, t, m); }
    }
  }

  lemma CreditedAreMinutes(st: State, ids: seq<string>, readings: map<string, real>, t: real)
    requires CanRecord(st, ids, readings)
    ensures forall m :: m in CreditFleet(st, ids, readings, t) ==> m % MINUTE_MS == 0
  {
    CreditFleetKeys(st, ids, readings, t);
  }

  lemma CreditKeepsTokens(st: State, ids: seq<string>, readings: map<string, real>, t: real, m: int)
    requires CanRecord(st, ids, readings) && m in CreditFleet(st, ids, readings, t) && m % MINUTE_MS == 0
    requires TokensFit(BucketBefore(st, ids, m)) && (m in st.buckets ==> NotEmpty(st.buckets[m], ids))
    ensures TokensFit(CreditFleet(st, ids, readings, t)[m]) && NotEmpty(CreditFleet(st, ids, readings, t)[m], ids)
  {
    hide CanRecord, NodeInterval, FleetInterval;
    IntegrationView(st, ids, readings, t, m);
    if m !in st.buckets {
      CreditMakesCovered(st, ids, readings, t, m);
    } else if Covered(st.buckets[m], ids) {
      StaysCovered(st, ids, readings, t, m);
    }
  }

  lemma StaysCovered(st: State, ids: seq<string>, readings: map<string, real>, t: real, m: int)
    requires CanRecord(st, ids, readings) && m in st.buckets && Covered(st.buckets[m], ids) && m % MINUTE_MS == 0
    ensures Covered(BucketAfter(st, ids, readings, t, m), ids)
  {
    hide CanRecord, NodeInterval, FleetInterval;
    IntegrationView(st, ids, readings, t, m);
    if st.buckets[m].fleetCoverageMs > 0.0 {
      if FleetInterval(st, ids, readings, t).Some? { FleetShareBounded(st, ids, readings, t, m); }
    } else {
      var id :| id in ids && Entry(st.buckets[m].nodeCoverageMs, id) > 0.0;
      ShareWithinBounds(st, ids, readings, t, m, id);
    }
  }

  lemma TokensAddedMade(b: Bucket, ids: seq<string>, delta: int, covered: bool)
    requires Splittable(b, ids) && TokensFit(b) && TokensOk(b) && 0 < delta <= MAX_SAFE_INTEGER
    requires NotEmpty(b, ids) || (b == EmptyBucket(ids) && ids != [])
    ensures Made(TokensAdded(b, delta, covered), ids)
  {
    hide EnergyWithin, Total;
    var b' := TokensAdded(b, delta, covered);
    var shares :| Splits(b, ids, shares);
    forall id | id in ids ensures SplitsNode(b', id, Entry(shares, id)) {
      assert SplitsNode(b, id, Entry(shares, id));
    }
    assert Splits(b', ids, shares);
  }

  lemma TokensKeepMade(st: State, ids: seq<string>, tokens: Option<TokenReading>, t: real, covered: bool)
    requires Inv(st, ids) && AllMade(st.buckets, ids, st.highWater)
    requires tokens.Some? ==> ValidTokens(tokens.value, ids)
    ensures AllMade(TokensRecorded(st, ids, tokens, t, covered).buckets, ids, st.highWater)
  {
    var after := TokensRecorded(st, ids, tokens, t, covered);
    if after.buckets != st.buckets {
      var m, b := MinuteOf(t), BucketAt(st.buckets, MinuteOf(t), ids);
      var delta := tokens.value.totalOutputTokens - st.tokenCounter.value.source.totalOutputTokens;
      DeltaFits(st, ids, tokens.value, delta);
      assert after.buckets == st.buckets[m := TokensAdded(b, delta, covered)];
      hide Inv, Made, Splittable, NotEmpty, ElapsedTo, Apart, TokensAdded, TokensRecorded;
      OneBucketMade(st, ids, m, delta, covered);
    }
  }

  lemma DeltaFits(st: State, ids: seq<string>, reading: TokenReading, delta: int)
    requires Inv(st, ids) && ValidTokens(reading, ids) && st.tokenCounter.Some?
    requires delta == reading.totalOutputTokens - st.tokenCounter.value.source.totalOutputTokens
    ensures delta <= MAX_SAFE_INTEGER
  {
    hide BucketsOk, HighWaterBacked, BaselinesOk;
  }

  lemma OneBucketMade(st: State, ids: seq<string>, m: int, delta: int, covered: bool)
    requires Inv(st, ids) && AllMade(st.buckets, ids, st.highWater) && 0 < delta <= MAX_SAFE_INTEGER && ids != []
    ensures var b := TokensAdded(BucketAt(st.buckets, m, ids), delta, covered);
            Made(b, ids) && (m >= 0 ==> Apart(b, ids, ElapsedTo(m, st.highWater)))
  {
    BucketTokensOk(st, ids, m);
    hide Inv, Splittable, NotEmpty, ElapsedTo, Total;
    EmptySplits(ids, ElapsedTo(m, st.highWater));
    TokensAddedMade(BucketAt(st.buckets, m, ids), ids, delta, covered);
  }

  lemma BucketTokensOk(st: State, ids: seq<string>, m: int)
    requires Inv(st, ids)
    ensures TokensOk(BucketAt(st.buckets, m, ids)) && ElapsedTo(m, st.highWater) >= 0.0
  {
    if m in st.buckets { assert BucketOk(st.buckets[m], ids); }
  }

  lemma ApartLater(b: Bucket, ids: seq<string>, elapsed: real, later: real)
    requires Apart(b, ids, elapsed) && elapsed <= later
    ensures Apart(b, ids, later)
  {
    hide Total;
    if ids != [] { ApartBounds((|ids| - 1) as real, 0.0, elapsed, later); }
  }

  lemma UncoveredApart(b: Bucket, ids: seq<string>)
    requires BucketOk(b, ids) && !Covered(b, ids)
    ensures Apart(b, ids, 0.0)
  {
    if ids != [] {
      assert NodeOk(b, ids[0]);
      forall id | id in ids ensures Entry(b.nodeCoverageMs, id) == 0.0 {
        assert NodeOk(b, id);
      }
      TotalConstant(ids, b.nodeCoverageMs, 0.0);
      hide Total, BucketOk, Covered;
      ApartBounds((|ids| - 1) as real, 0.0, 0.0, 0.0);
    }
  }

  lemma SubsetMade(buckets: Buckets, kept: Buckets, ids: seq<string>, highWater: Option<real>)
    requires AllMade(buckets, ids, highWater) && forall m :: m in kept ==> m in buckets && kept[m] == buckets[m]
    ensures AllMade(kept, ids, highWater)
  {
  }

  /** Over any run of records: full-fleet energy splits into the nodes' shares, and the other conditions hold too. */
  lemma RecordKeepsMade(st: State, ids: seq<string>, readings: map<string, real>, tokens: Option<TokenReading>, t: real)
    requires CanRecord(st, ids, readings) && AllMade(st.buckets, ids, st.highWater) && t <= MAX_SAFE_INTEGER as real
    requires tokens.Some? ==> ValidTokens(tokens.value, ids)
    ensures var after := Recorded(st, ids, readings, tokens, t); AllMade(after.buckets, ids, after.highWater)
  {
    hide AllMade, Inv, TokensRecorded, Survivors, Integrates, CreditFleet, FleetInterval;
    if st.latestRecordAt != Some(t) {
      var start := AfterRollback(st, t);
      RollbackKeepsInv(st, ids, t);
      CreditKeepsMade(start, ids, readings, t);
      IntegratedKeepsInv(start, ids, readings, t);
      var integrated := Integrated(start, ids, readings, t).(latestRecordAt := Some(t), dirty := true);
      TokensKeepMade(integrated, ids, tokens, t, FleetInterval(start, ids, readings, t).Some?);
      var counted := Counted(st, ids, readings, tokens, t);
      TokensKeepMark(integrated, ids, tokens, t, FleetInterval(start, ids, readings, t).Some?);
      SubsetMade(counted.buckets, Pruned(counted, t).buckets, ids, counted.highWater);
    }
  }

  lemma TokensKeepMark(st: State, ids: seq<string>, tokens: Option<TokenReading>, t: real, covered: bool)
    ensures TokensRecorded(st, ids, tokens, t, covered).highWater == st.highWater
  {
  }
}
