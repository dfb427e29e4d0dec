/**
  Sums over buckets: rolling windows and the 24 hourly slots of the graph
  (server/energy/FleetEnergyTracker.js:502-554).
 */
module EnergyWindows {
  import opened Options
  import opened EnergyArithmetic
  import opened EnergyBuckets
  import opened EnergyState
  import opened EnergyInvariant
  import opened FiniteSets
  import opened FiniteSums
  import opened RealArithmetic

  const HOUR_MS := 3_600_000

  // --- Rolling windows ------------------------------------------------------------------------

  function AddTables(ids: seq<string>, a: map<string, real>, b: map<string, real>): map<string, real> {
    map id | id in ids :: Entry(a, id) + Entry(b, id)
  }

  /** Field by field sum of two buckets: also the shape of a window's totals. */
  function Merge(ids: seq<string>, a: Bucket, b: Bucket): Bucket {
    Bucket(AddTables(ids, a.nodeWh, b.nodeWh), AddTables(ids, a.nodeCoverageMs, b.nodeCoverageMs),
           a.fleetWattMs + b.fleetWattMs, a.fleetCoverageMs + b.fleetCoverageMs,
           a.outputTokens + b.outputTokens, a.coveredOutputTokens + b.coveredOutputTokens)
  }

  /** Totals of the buckets of a list whose starts lie in [cutoff, now]. */
  function WindowTotals(buckets: Buckets, ids: seq<string>, order: seq<int>, cutoff: int, now: real): Bucket {
    if order == [] then EmptyBucket(ids)
    else
      var before, m := WindowTotals(buckets, ids, order[..|order| - 1], cutoff, now), order[|order| - 1];
      if m < cutoff || m as real > now then before else Merge(ids, before, BucketAt(buckets, m, ids))
  }

  /** Apart from the length of a minute, sums of buckets obey the bounds of single ones. */
  predicate TotalsOk(b: Bucket, ids: seq<string>) {
    && Shaped(b, ids)
    && (forall id :: id in ids ==> NodeOk(b, id))
    && FleetOk(b, ids)
  }

  lemma WithinAdds(lo: real, hi: real, t: real, e: real, t': real, e': real, tSum: real, eSum: real)
    requires EnergyWithin(lo, hi, t, e) && EnergyWithin(lo, hi, t', e') && tSum == t + t' && eSum == e + e'
    ensures EnergyWithin(lo, hi, tSum, eSum)
  {
    Undistribute(lo, t, t');
    Undistribute(hi, t, t');
  }

  lemma MergeNodeOk(ids: seq<string>, a: Bucket, b: Bucket, id: string)
    requires id in ids && NodeOk(a, id) && NodeOk(b, id)
    ensures NodeOk(Merge(ids, a, b), id)
  {
    var c := Merge(ids, a, b);
    WithinAdds(MIN_NODE_WATTS, MAX_NODE_WATTS, Entry(a.nodeCoverageMs, id), Entry(a.nodeWh, id) * MS_PER_HOUR,
               Entry(b.nodeCoverageMs, id), Entry(b.nodeWh, id) * MS_PER_HOUR, Entry(c.nodeCoverageMs, id),
               Entry(c.nodeWh, id) * MS_PER_HOUR);
  }

  lemma MergeFleetOk(ids: seq<string>, a: Bucket, b: Bucket)
    requires FleetOk(a, ids) && FleetOk(b, ids)
    ensures FleetOk(Merge(ids, a, b), ids)
  {
    var c := Merge(ids, a, b);
    var n := |ids| as real;
    WithinAdds(MIN_NODE_WATTS * n, MAX_NODE_WATTS * n, a.fleetCoverageMs, a.fleetWattMs, b.fleetCoverageMs,
               b.fleetWattMs,
               c.fleetCoverageMs, c.fleetWattMs);
    TotalAdds(ids, a.nodeWh, b.nodeWh, c.nodeWh);
    Undistribute(MS_PER_HOUR, Total(ids, a.nodeWh), Total(ids, b.nodeWh));
  }

  lemma MergeOk(ids: seq<string>, a: Bucket, b: Bucket)
    requires TotalsOk(a, ids) && TotalsOk(b, ids)
    ensures TotalsOk(Merge(ids, a, b), ids)
  {
    hide NodeOk, FleetOk;
    forall id | id in ids ensures NodeOk(Merge(ids, a, b), id) {
      MergeNodeOk(ids, a, b, id);
    }
    MergeFleetOk(ids, a, b);
  }

  lemma {:induction false} EmptyTotal(ids: seq<string>, table: map<string, real>)
    requires forall id :: id in ids ==> Entry(table, id) == 0.0
    ensures Total(ids, table) == 0.0
  {
    if ids != [] { EmptyTotal(ids[..|ids| - 1], table); }
  }

  lemma EmptyTotalsOk(ids: seq<string>)
    ensures TotalsOk(EmptyBucket(ids), ids)
  {
    EmptyTotal(ids, EmptyBucket(ids).nodeWh);
  }

  /** Over any window each node drew between 28.2 W and 240 W for its time, and the fleet no more than its nodes. */
  lemma {:induction false} WindowTotalsOk(buckets: Buckets, ids: seq<string>, order: seq<int>, cutoff: int, now: real)
    requires forall m :: m in order ==> m in buckets && BucketOk(buckets[m], ids)
    ensures TotalsOk(WindowTotals(buckets, ids, order, cutoff, now), ids)
  {
    hide TotalsOk;
    if order == [] {
      EmptyTotalsOk(ids);
    } else {
      var m := order[|order| - 1];
      WindowTotalsOk(buckets, ids, order[..|order| - 1], cutoff, now);
      OkBucketOk(buckets[m], ids);
      MergeOk(ids, WindowTotals(buckets, ids, order[..|order| - 1], cutoff, now), buckets[m]);
    }
  }

  lemma OkBucketOk(b: Bucket, ids: seq<string>)
    requires BucketOk(b, ids)
    ensures TotalsOk(b, ids)
  {
  }

  // --- How much coverage a window can hold -----------------------------------------------------

  /** The instant up to which minutes listed so far can have been covered. */
  function Reached(order: seq<int>, cutoff: int, now: real): real {
    if order == [] then cutoff as real
    else
      var m := order[|order| - 1];
      if m < cutoff then cutoff as real else Max(cutoff as real, Min(now, (m + MINUTE_MS) as real))
  }

  predicate MinuteStarts(order: seq<int>) {
    forall i :: 0 <= i < |order| ==> order[i] % MINUTE_MS == 0
  }

  predicate CoveredUpTo(buckets: Buckets, ids: seq<string>, now: real) {
    forall m :: m in buckets ==> CoverageWithin(buckets[m], ids, Elapsed(m, now))
  }

  lemma ReachedGrows(order: seq<int>, cutoff: int, now: real)
    requires order != [] && Increasing(order) && MinuteStarts(order)
    requires cutoff <= order[|order| - 1] && order[|order| - 1] as real <= now
    ensures Reached(order[..|order| - 1], cutoff, now) <= order[|order| - 1] as real
    ensures Reached(order, cutoff, now) - order[|order| - 1] as real == Elapsed(order[|order| - 1], now)
    ensures Reached(order, cutoff, now) <= now
  {
    if |order| > 1 {
      assert order[|order| - 2] + MINUTE_MS <= order[|order| - 1];
    }
  }

  lemma MergeWithin(ids: seq<string>, a: Bucket, b: Bucket, limit: real, more: real, sum: real)
    requires CoverageWithin(a, ids, limit) && CoverageWithin(b, ids, more) && limit + more <= sum
    ensures CoverageWithin(Merge(ids, a, b), ids, sum)
  {
  }

  lemma {:induction false} CoverageReached(buckets: Buckets, ids: seq<string>, order: seq<int>, cutoff: int, now: real)
    requires Increasing(order) && MinuteStarts(order) && CoveredUpTo(buckets, ids, now)
    requires forall m :: m in order ==> m in buckets
    ensures CoverageWithin(WindowTotals(buckets, ids, order, cutoff, now), ids,
                           Reached(order, cutoff, now) - cutoff as real)
  {
    if order != [] {
      var rest, m := order[..|order| - 1], order[|order| - 1];
      CoverageReached(buckets, ids, rest, cutoff, now);
      if m < cutoff {
        if rest != [] { assert rest[|rest| - 1] < m; }
      } else if m as real > now {
        ReachedBeyond(order, cutoff, now);
      } else {
        ReachedGrows(order, cutoff, now);
        MergeWithin(ids, WindowTotals(buckets, ids, rest, cutoff, now), buckets[m],
                    Reached(rest, cutoff, now) - cutoff as real, Elapsed(m, now),
                    Reached(order, cutoff, now) - cutoff as real);
      }
    }
  }

  lemma ReachedBeyond(order: seq<int>, cutoff: int, now: real)
    requires order != [] && Increasing(order) && order[|order| - 1] >= cutoff && order[|order| - 1] as real > now
    ensures Reached(order[..|order| - 1], cutoff, now) <= Reached(order, cutoff, now)
  {
  }

  /**
    A window that ends at `now`, when the high-water mark is not ahead of it, holds at most the time since
    its cutoff, for the fleet as for every node, and that is less than the window plus one minute.
   */
  lemma WindowCoverage(st: State, ids: seq<string>, order: seq<int>, now: real, windowMs: real)
    requires Inv(st, ids) && (forall m :: m in st.buckets ==> m >= 0)
    requires st.highWater.Some? ==> st.highWater.value <= now
    requires Increasing(order) && forall m :: m in order <==> m in st.buckets
    requires windowMs >= 0.0
    ensures var cutoff := AlignedWindowCutoff(now, windowMs);
            && CoverageWithin(WindowTotals(st.buckets, ids, order, cutoff, now), ids, now - cutoff as real)
            && windowMs <= now - cutoff as real < windowMs + MINUTE
  {
    var cutoff := AlignedWindowCutoff(now, windowMs);
    InvCoveredUpTo(st, ids, now);
    forall i | 0 <= i < |order| ensures order[i] % MINUTE_MS == 0 {
      assert order[i] in order;
    }
    CoverageReached(st.buckets, ids, order, cutoff, now);
    assert Reached(order, cutoff, now) <= now;
  }

  lemma InvCoveredUpTo(st: State, ids: seq<string>, now: real)
    requires Inv(st, ids) && (forall m :: m in st.buckets ==> m >= 0)
    requires st.highWater.Some? ==> st.highWater.value <= now
    ensures CoveredUpTo(st.buckets, ids, now)
  {
    hide BucketOk;
    forall m | m in st.buckets ensures CoverageWithin(st.buckets[m], ids, Elapsed(m, now)) {
      assert ElapsedTo(m, st.highWater) <= Elapsed(m, now);
    }
  }

  // --- Hourly averages ------------------------------------------------------------------------

  datatype FleetTotals = FleetTotals(wattMs: real, coverageMs: real)

  function PlusBucket(totals: FleetTotals, b: Bucket): FleetTotals {
    FleetTotals(totals.wattMs + b.fleetWattMs, totals.coverageMs + b.fleetCoverageMs)
  }

  function Plus(a: FleetTotals, b: FleetTotals): FleetTotals {
    FleetTotals(a.wattMs + b.wattMs, a.coverageMs + b.coverageMs)
  }

  const NOTHING := FleetTotals(0.0, 0.0)

  /** Fleet totals of the listed buckets whose starts lie in [from, to). */
  function RangeTotals(buckets: Buckets, ids: seq<string>, order: seq<int>, from: int, to: int): FleetTotals {
    if order == [] then NOTHING
    else
      var before, m := RangeTotals(buckets, ids, order[..|order| - 1], from, to), order[|order| - 1];
      if from <= m < to then PlusBucket(before, BucketAt(buckets, m, ids)) else before
  }

  function GraphStart(now: real): int {
    MinuteOf(now) - 24 * HOUR_MS
  }

  /** Start of the k-th hour of the graph. */
  function HourStart(now: real, k: int): int {
    GraphStart(now) + k * HOUR_MS
  }

  function HourTotals(buckets: Buckets, ids: seq<string>, order: seq<int>, now: real, k: int): FleetTotals {
    RangeTotals(buckets, ids, order, HourStart(now, k), HourStart(now, k + 1))
  }

  function Average(totals: FleetTotals): Option<real> {
    if totals.coverageMs > 0.0 then Some(totals.wattMs / totals.coverageMs) else None
  }

  /** Sum of the first `k` hours. */
  function HoursTotals(buckets: Buckets, ids: seq<string>, order: seq<int>, now: real, k: nat): FleetTotals {
    if k == 0 then NOTHING
      else Plus(HoursTotals(buckets, ids, order, now, k - 1), HourTotals(buckets, ids, order, now, k - 1))
  }

  lemma {:induction false} RangesJoin(buckets: Buckets, ids: seq<string>, order: seq<int>, a: int, b: int, c: int)
    requires a <= b <= c
    ensures Plus(RangeTotals(buckets, ids, order, a, b), RangeTotals(buckets, ids, order, b, c))
            == RangeTotals(buckets, ids, order, a, c)
  {
    if order != [] {
      RangesJoin(buckets, ids, order[..|order| - 1], a, b, c);
    }
  }

  lemma {:induction false} EmptyRange(buckets: Buckets, ids: seq<string>, order: seq<int>, a: int)
    ensures RangeTotals(buckets, ids, order, a, a) == NOTHING
  {
    if order != [] { EmptyRange(buckets, ids, order[..|order| - 1], a); }
  }

  lemma {:induction false} HoursJoin(buckets: Buckets, ids: seq<string>, order: seq<int>, now: real, k: nat)
    ensures HoursTotals(buckets, ids, order, now, k)
            == RangeTotals(buckets, ids, order, GraphStart(now), HourStart(now, k))
  {
    hide RangeTotals, GraphStart;
    if k == 0 {
      EmptyRange(buckets, ids, order, GraphStart(now));
    } else {
      HoursJoin(buckets, ids, order, now, k - 1);
      RangesJoin(buckets, ids, order, GraphStart(now), HourStart(now, k - 1), HourStart(now, k));
    }
  }

  /** Hour of the graph that a bucket's start falls into, as the source computes it. */
  function HourIndex(m: int, now: real): int {
    (m - GraphStart(now)) / HOUR_MS
  }

  /** The test by which the source picks the slot of a bucket. */
  predicate FallsIn(m: int, now: real, k: int) {
    GraphStart(now) <= m < MinuteOf(now) && HourIndex(m, now) == k
  }

  predicate InHour(m: int, now: real, k: int) {
    HourStart(now, k) <= m < HourStart(now, k + 1)
  }

  lemma HourOf(m: int, now: real, k: int)
    requires GraphStart(now) <= m
    ensures HourIndex(m, now) == k <==> HourStart(now, k) <= m < HourStart(now, k + 1)
  {
    var d := m - GraphStart(now);
    assert d == d / HOUR_MS * HOUR_MS + d % HOUR_MS;
    if HourStart(now, k) <= m < HourStart(now, k + 1) {
      assert k * HOUR_MS <= d < (k + 1) * HOUR_MS;
      HourQuotient(d, k);
    }
  }

  lemma HourQuotient(d: int, k: int)
    requires k * HOUR_MS <= d < k * HOUR_MS + HOUR_MS
    ensures d / HOUR_MS == k
  {
  }

  /**
    The 24 slots partition the graph's range: a bucket counts in exactly one hour if it starts in
    [graphStart, graphEnd), in none otherwise, and the slots' totals add up to the range's.
   */
  lemma HoursPartition(buckets: Buckets, ids: seq<string>, order: seq<int>, now: real)
    ensures HoursTotals(buckets, ids, order, now, 24)
            == RangeTotals(buckets, ids, order, GraphStart(now), MinuteOf(now))
    ensures forall m :: GraphStart(now) <= m < MinuteOf(now) ==> 0 <= HourIndex(m, now) < 24
    ensures forall m, k :: 0 <= k < 24 ==>
              (InHour(m, now, k) <==> FallsIn(m, now, k))
  {
    HoursJoin(buckets, ids, order, now, 24);
    LastHourEnds(now);
    hide HoursTotals, RangeTotals, HourStart, HourIndex, InHour, FallsIn, GraphStart, MinuteOf;
    forall m, k | 0 <= k < 24
      ensures InHour(m, now, k) <==> FallsIn(m, now, k)
    {
      HourAgrees(m, now, k);
    }
    forall m | GraphStart(now) <= m < MinuteOf(now)
      ensures 0 <= HourIndex(m, now) < 24
    {
      HourInRange(m, now);
    }
  }

  lemma LastHourEnds(now: real)
    ensures HourStart(now, 24) == MinuteOf(now)
  {
    hide MinuteOf;
  }

  lemma HourAgrees(m: int, now: real, k: int)
    requires 0 <= k < 24
    ensures InHour(m, now, k) <==> FallsIn(m, now, k)
  {
    hide MinuteOf;
    if GraphStart(now) <= m { HourOf(m, now, k); }
  }

  lemma HourInRange(m: int, now: real)
    requires GraphStart(now) <= m < MinuteOf(now)
    ensures 0 <= HourIndex(m, now) < 24
  {
    hide MinuteOf;
  }

  function PlusIf(counts: bool, totals: FleetTotals, b: Bucket): FleetTotals {
    if counts then PlusBucket(totals, b) else totals
  }

  /** One more bucket changes the hour it falls into and no other. */
  lemma HourStep(buckets: Buckets, ids: seq<string>, order: seq<int>, now: real, i: nat)
    requires i < |order|
    ensures GraphStart(now) == MinuteOf(now) - 24 * HOUR_MS
    ensures GraphStart(now) <= order[i] < MinuteOf(now) ==> 0 <= HourIndex(order[i], now) < 24
    ensures forall k :: 0 <= k < 24 ==>
              HourTotals(buckets, ids, order[..i + 1], now, k) ==
              PlusIf(FallsIn(order[i], now, k), HourTotals(buckets, ids, order[..i], now, k),
                     BucketAt(buckets, order[i], ids))
  {
    assert order[..i + 1][..i] == order[..i];
    HoursPartition(buckets, ids, order, now);
    forall k | 0 <= k < 24
      ensures HourTotals(buckets, ids, order[..i + 1], now, k) ==
              PlusIf(FallsIn(order[i], now, k), HourTotals(buckets, ids, order[..i], now, k),
                     BucketAt(buckets, order[i], ids))
    {
      assert InHour(order[i], now, k) <==> FallsIn(order[i], now, k);
    }
  }

  lemma {:induction false} RangeWithin(buckets: Buckets, ids: seq<string>, order: seq<int>, from: int, to: int)
    requires forall m :: m in order ==> m in buckets && BucketOk(buckets[m], ids)
    ensures var r, n := RangeTotals(buckets, ids, order, from, to), |ids| as real;
            EnergyWithin(MIN_NODE_WATTS * n, MAX_NODE_WATTS * n, r.coverageMs, r.wattMs)
  {
    if order != [] {
      var rest, m, n := order[..|order| - 1], order[|order| - 1], |ids| as real;
      RangeWithin(buckets, ids, rest, from, to);
      if from <= m < to {
        var before, after := RangeTotals(buckets, ids, rest, from, to), RangeTotals(buckets, ids, order, from, to);
        WithinAdds(MIN_NODE_WATTS * n, MAX_NODE_WATTS * n, before.coverageMs, before.wattMs,
                   buckets[m].fleetCoverageMs, buckets[m].fleetWattMs, after.coverageMs, after.wattMs);
      }
    }
  }

  lemma AverageWithin(lo: real, hi: real, t: real, e: real)
    requires EnergyWithin(lo, hi, t, e) && t > 0.0
    ensures lo <= e / t <= hi
  {
    assert e / t - lo == (e - lo * t) / t;
    assert hi - e / t == (hi * t - e) / t;
    NonNegativeQuotient(e - lo * t, t);
    NonNegativeQuotient(hi * t - e, t);
  }

  /** Every hourly average lies between 28.2 W and 240 W times the number of nodes. */
  lemma HourlyBounds(st: State, ids: seq<string>, order: seq<int>, now: real, k: int)
    requires Inv(st, ids) && forall m :: m in order ==> m in st.buckets
    ensures var average := Average(HourTotals(st.buckets, ids, order, now, k));
            average.Some? ==> MIN_NODE_WATTS * |ids| as real <= average.value <= MAX_NODE_WATTS * |ids| as real
  {
    var totals := HourTotals(st.buckets, ids, order, now, k);
    RangeWithin(st.buckets, ids, order, HourStart(now, k), HourStart(now, k + 1));
    if totals.coverageMs > 0.0 {
      AverageWithin(MIN_NODE_WATTS * |ids| as real, MAX_NODE_WATTS * |ids| as real, totals.coverageMs, totals.wattMs);
    }
  }

  // --- What the totals are --------------------------------------------------------------------

  /** One figure of all buckets that a test picks by their start. */
  function Picked(buckets: Buckets, picks: int -> bool, figure: Bucket -> real): map<int, real> {
    map m | m in buckets && picks(m) :: figure(buckets[m])
  }

  /** A figure that is zero for an empty bucket and is added when buckets are merged. */
  ghost predicate Additive(ids: seq<string>, figure: Bucket -> real) {
    figure(EmptyBucket(ids)) == 0.0 && forall a, b :: figure(Merge(ids, a, b)) == figure(a) + figure(b)
  }

  /** The buckets of a list. */
  function Listed(buckets: Buckets, order: seq<int>): Buckets {
    map m | m in buckets && m in order :: buckets[m]
  }

  lemma AllListed(buckets: Buckets, order: seq<int>)
    requires forall m :: m in order <==> m in buckets
    ensures Listed(buckets, order) == buckets
  {
    forall m ensures m in Listed(buckets, order) <==> m in buckets {
      assert m in order <==> m in buckets;
    }
  }

  lemma ListedMore(buckets: Buckets, rest: seq<int>, m: int)
    requires Increasing(rest + [m]) && m in buckets
    ensures m !in Listed(buckets, rest)
    ensures Listed(buckets, rest + [m]) == Listed(buckets, rest)[m := buckets[m]]
  {
    var order := rest + [m];
    forall x | x in rest ensures x < m {
      var i :| 0 <= i < |rest| && rest[i] == x;
      assert order[i] < order[|rest|];
    }
  }

  lemma PickedMore(buckets: Buckets, m: int, b: Bucket, picks: int -> bool, figure: Bucket -> real)
    requires m !in buckets
    ensures Picked(buckets[m := b], picks, figure)
         == if picks(m) then Picked(buckets, picks, figure)[m := figure(b)] else Picked(buckets, picks, figure)
  {
  }

  /** One more bucket at the end of the list adds its own figure if it is picked. */
  lemma OneMorePicked(buckets: Buckets, order: seq<int>, picks: int -> bool, figure: Bucket -> real)
    requires order != [] && Increasing(order) && order[|order| - 1] in buckets
    ensures var rest, m := order[..|order| - 1], order[|order| - 1];
            Sum(Picked(Listed(buckets, order), picks, figure))
            == Sum(Picked(Listed(buckets, rest), picks, figure)) + if picks(m) then figure(buckets[m]) else 0.0
  {
    hide Sum, Increasing;
    var rest, m := order[..|order| - 1], order[|order| - 1];
    assert order == rest + [m];
    ListedMore(buckets, rest, m);
    PickedMore(Listed(buckets, rest), m, buckets[m], picks, figure);
    SumUpdate(Picked(Listed(buckets, rest), picks, figure), m, figure(buckets[m]));
  }

  lemma NothingPicked(buckets: Buckets, picks: int -> bool, figure: Bucket -> real)
    ensures Sum(Picked(Listed(buckets, []), picks, figure)) == 0.0
  {
    assert Picked(Listed(buckets, []), picks, figure) == map[];
  }

  lemma {:induction false} WindowPicks(buckets: Buckets, ids: seq<string>, order: seq<int>, cutoff: int, now: real,
                                       figure: Bucket -> real)
    requires Increasing(order) && (forall m :: m in order ==> m in buckets) && Additive(ids, figure)
    ensures figure(WindowTotals(buckets, ids, order, cutoff, now))
         == Sum(Picked(Listed(buckets, order), (m: int) => cutoff <= m && m as real <= now, figure))
  {
    hide Merge;
    var picks := (m: int) => cutoff <= m && m as real <= now;
    if order == [] {
      NothingPicked(buckets, picks, figure);
    } else {
      assert order[|order| - 1] in order;
      WindowPicks(buckets, ids, order[..|order| - 1], cutoff, now, figure);
      OneMorePicked(buckets, order, picks, figure);
    }
  }

  /**
    Every figure of a window, of the fleet as of each node, is the sum of that figure over all buckets that start
    between the cutoff and the instant asked for.
   */
  lemma WindowSums(buckets: Buckets, ids: seq<string>, order: seq<int>, cutoff: int, now: real, id: string)
    requires Increasing(order) && (forall m :: m in order <==> m in buckets) && id in ids
    ensures var totals, inWindow := WindowTotals(buckets, ids, order, cutoff, now),
            (m: int) => cutoff <= m && m as real <= now;
            && totals.fleetWattMs == Sum(Picked(buckets, inWindow, (b: Bucket) => b.fleetWattMs))
            && totals.fleetCoverageMs == Sum(Picked(buckets, inWindow, (b: Bucket) => b.fleetCoverageMs))
            && totals.outputTokens as real == Sum(Picked(buckets, inWindow, (b: Bucket) => b.outputTokens as real))
            && totals.coveredOutputTokens as real
               == Sum(Picked(buckets, inWindow, (b: Bucket) => b.coveredOutputTokens as real))
            && Entry(totals.nodeWh, id) == Sum(Picked(buckets, inWindow, (b: Bucket) => Entry(b.nodeWh, id)))
            && Entry(totals.nodeCoverageMs, id)
               == Sum(Picked(buckets, inWindow, (b: Bucket) => Entry(b.nodeCoverageMs, id)))
  {
    hide WindowTotals;
    AllListed(buckets, order);
    WindowPicks(buckets, ids, order, cutoff, now, (b: Bucket) => b.fleetWattMs);
    WindowPicks(buckets, ids, order, cutoff, now, (b: Bucket) => b.fleetCoverageMs);
    WindowPicks(buckets, ids, order, cutoff, now, (b: Bucket) => b.outputTokens as real);
    WindowPicks(buckets, ids, order, cutoff, now, (b: Bucket) => b.coveredOutputTokens as real);
    WindowPicks(buckets, ids, order, cutoff, now, (b: Bucket) => Entry(b.nodeWh, id));
    WindowPicks(buckets, ids, order, cutoff, now, (b: Bucket) => Entry(b.nodeCoverageMs, id));
  }

  lemma {:induction false} RangePicks(buckets: Buckets, ids: seq<string>, order: seq<int>, from: int, to: int)
    requires Increasing(order) && (forall m :: m in order ==> m in buckets)
    ensures var totals := RangeTotals(buckets, ids, order, from, to);
            && totals.wattMs
               == Sum(Picked(Listed(buckets, order), (m: int) => from <= m < to, (b: Bucket) => b.fleetWattMs))
            && totals.coverageMs
               == Sum(Picked(Listed(buckets, order), (m: int) => from <= m < to, (b: Bucket) => b.fleetCoverageMs))
  {
    var picks := (m: int) => from <= m < to;
    if order == [] {
      NothingPicked(buckets, picks, (b: Bucket) => b.fleetWattMs);
      NothingPicked(buckets, picks, (b: Bucket) => b.fleetCoverageMs);
    } else {
      assert order[|order| - 1] in order;
      RangePicks(buckets, ids, order[..|order| - 1], from, to);
      OneMorePicked(buckets, order, picks, (b: Bucket) => b.fleetWattMs);
      OneMorePicked(buckets, order, picks, (b: Bucket) => b.fleetCoverageMs);
    }
  }

  /**
    The k-th of the 24 hours that end with the minute of `now` has an average exactly when the fleet was covered in it,
    and the average times that coverage is the fleet energy of the buckets that start in the hour.
   */
  lemma HourlyAverages(buckets: Buckets, ids: seq<string>, order: seq<int>, now: real, k: int)
    requires Increasing(order) && (forall m :: m in order <==> m in buckets)
    ensures var start := MinuteOf(now) - (24 - k) * 3_600_000;
            var inHour := (m: int) => start <= m < start + 3_600_000;
            var coverage := Sum(Picked(buckets, inHour, (b: Bucket) => b.fleetCoverageMs));
            var average := Average(HourTotals(buckets, ids, order, now, k));
            && (average.Some? <==> coverage > 0.0)
            && (average.Some? ==>
                average.value * coverage == Sum(Picked(buckets, inHour, (b: Bucket) => b.fleetWattMs)))
  {
    hide RangeTotals, MinuteOf;
    AllListed(buckets, order);
    var start := MinuteOf(now) - (24 - k) * 3_600_000;
    RangePicks(buckets, ids, order, start, start + 3_600_000);
    var totals := HourTotals(buckets, ids, order, now, k);
    if totals.coverageMs > 0.0 { QuotientBack(totals.wattMs, totals.coverageMs); }
  }
}
