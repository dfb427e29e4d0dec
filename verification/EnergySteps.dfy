/**
  What the class in EnergyTracker.dfy needs to know, loop by loop: the order in which minutes were
  inserted and what appending, sorting and dropping do to it; pruning in two steps; one more segment of
  one line; and the turns of the loop over the nodes, put together to one record.
 */
module EnergySteps {
  import opened Options
  import opened EnergyArithmetic
  import opened EnergyBuckets
  import opened EnergyState
  import opened FiniteSets
  import opened RealArithmetic

  // --- Order of insertion ---------------------------------------------------------------------

  predicate NoRepeats(xs: seq<int>) {
    forall i, j :: 0 <= i < j < |xs| ==> xs[i] != xs[j]
  }

  function Elements(xs: seq<int>): set<int> {
    set x | x in xs
  }

  /** `x` put into an increasing sequence. */
  method InsertSorted(xs: seq<int>, x: int) returns (ys: seq<int>)
    requires Increasing(xs) && x !in xs
    ensures Increasing(ys) && Elements(ys) == Elements(xs) + {x}
  {
    var i := |xs|;
    while i > 0 && xs[i - 1] > x
      invariant 0 <= i <= |xs|
      invariant forall j :: i <= j < |xs| ==> x < xs[j]
    {
      i := i - 1;
    }
    ys := xs[..i] + [x] + xs[i..];
    InsertKeepsIncreasing(xs, x, i);
  }

  lemma InsertKeepsIncreasing(xs: seq<int>, x: int, i: nat)
    requires Increasing(xs) && x !in xs && i <= |xs|
    requires i > 0 ==> xs[i - 1] <= x
    requires forall j :: i <= j < |xs| ==> x < xs[j]
    ensures Increasing(xs[..i] + [x] + xs[i..])
    ensures Elements(xs[..i] + [x] + xs[i..]) == Elements(xs) + {x}
  {
    forall j | 0 <= j < i ensures xs[j] < x {
      assert xs[j] <= xs[i - 1] && xs[i - 1] in xs;
    }
    assert xs == xs[..i] + xs[i..];
  }

  /** The starts in increasing order. */
  method SortStarts(xs: seq<int>) returns (ys: seq<int>)
    requires NoRepeats(xs)
    ensures Increasing(ys) && Elements(ys) == Elements(xs)
  {
    ys := [];
    for i := 0 to |xs|
      invariant Increasing(ys) && Elements(ys) == Elements(xs[..i])
    {
      assert xs[i] !in Elements(xs[..i]);
      assert xs[..i + 1] == xs[..i] + [xs[i]];
      ys := InsertSorted(ys, xs[i]);
    }
    assert xs[..|xs|] == xs;
  }

  // --- Node ids -------------------------------------------------------------------------------

  predicate IsBlank(id: string) {
    forall c :: c in id ==> c in {' ', '\t', '\n', '\r'}
  }

  /** The non-blank ids, each once, in order of first appearance. */
  function NormalizeNodeIds(ids: seq<string>): (normalized: seq<string>)
    ensures Distinct(normalized)
    ensures forall id :: id in normalized <==> id in ids && !IsBlank(id)
  {
    if ids == [] then []
    else
      var before, last := NormalizeNodeIds(ids[..|ids| - 1]), ids[|ids| - 1];
      assert ids == ids[..|ids| - 1] + [last];
      if IsBlank(last) || last in before then before else before + [last]
  }

  lemma CreditedNothing(buckets: Buckets, ids: seq<string>, meter: Meter, r: Ramp, t: real)
    requires WellFormed(buckets, ids) && Tracks(ids, meter) && r.Valid()
    ensures Credited(buckets, ids, meter, r, t, t) == buckets
  {
    var result := Credited(buckets, ids, meter, r, t, t);
    assert result.Keys == buckets.Keys;
    forall m | m in buckets ensures result[m] == buckets[m] {
      NoOverlap(m, r, t, t);
      AddNothing(buckets[m], ids, meter);
    }
  }

  /** Adding one more segment, inside one minute, to buckets that were credited up to `at`, credits them up to `to`. */
  lemma SegmentStep(buckets: Buckets, ids: seq<string>, meter: Meter, r: Ramp, from: real, at: real, to: real,
                    durationMs: real, wattMs: real, before: Buckets, after: Buckets)
    requires WellFormed(buckets, ids) && Tracks(ids, meter) && r.Valid()
    requires from <= at < to <= MinuteOf(at) as real + MINUTE
    requires durationMs == to - at && wattMs == r.Area(at, to)
    requires before == Credited(buckets, ids, meter, r, from, at)
    requires after == before[MinuteOf(at) := Add(BucketAt(before, MinuteOf(at), ids), meter, durationMs, wattMs)]
    ensures after == Credited(buckets, ids, meter, r, from, to)
  {
    hide Credited, WellFormed;
    CreditedWellFormed(buckets, ids, meter, r, from, at);
    CreditInOneMinute(before, ids, meter, r, at, to);
    CreditsJoin(buckets, ids, meter, r, from, at, to);
  }

  lemma MinuteOfBoundary(t: real, m: int)
    requires m % MINUTE_MS == 0 && t == m as real
    ensures MinuteOf(t) == m
  {
    SameMinute(m, MinuteOf(t), t);
  }

  /** A measure of the loop over the minutes of an interval. */
  function MinutesLeft(t: real, end: real): nat {
    if t < end && MinuteOf(t) <= MinuteOf(end) then 1 + MinuteOf(end) - MinuteOf(t) else 0
  }

  lemma LessLeft(t: real, next: real, end: real)
    requires t < end && next == Min(end, MinuteOf(t) as real + MINUTE)
    ensures t < next <= end && next <= MinuteOf(t) as real + MINUTE
    ensures MinutesLeft(next, end) < MinutesLeft(t, end)
  {
    MinuteOfMonotone(t, end);
    if next < end {
      MinuteOfBoundary(next, MinuteOf(t) + MINUTE_MS);
      MinuteOfMonotone(next, end);
    }
  }

  lemma MinuteOfMonotone(a: real, b: real)
    requires a <= b
    ensures MinuteOf(a) <= MinuteOf(b)
  {
    assert MinuteOf(a) < MinuteOf(b) + MINUTE_MS;
  }

  // --- Bookkeeping of the order ---------------------------------------------------------------

  /** The order lists every start once; while the flag is up it is increasing; `latest` is the newest start. */
  predicate OrderOk(order: seq<int>, starts: set<int>, ordered: bool, latest: Option<int>) {
    && NoRepeats(order)
    && Elements(order) == starts
    && (ordered ==> Increasing(order))
    && (latest.None? <==> order == [])
    && (latest.Some? ==> latest.value in starts && forall m :: m in starts ==> m <= latest.value)
  }

  lemma AppendStart(order: seq<int>, starts: set<int>, ordered: bool, latest: Option<int>, m: int)
    requires OrderOk(order, starts, ordered, latest) && m !in starts
    ensures OrderOk(order + [m], starts + {m}, ordered && (latest.Some? ==> m > latest.value),
                    Some(if latest.Some? && latest.value > m then latest.value else m))
  {
    forall i | 0 <= i < |order| ensures order[i] != m && order[i] in starts {
      assert order[i] in Elements(order);
    }
    assert Elements(order + [m]) == Elements(order) + {m};
  }

  lemma SortedOrderOk(order: seq<int>, starts: set<int>)
    requires Increasing(order) && Elements(order) == starts
    ensures OrderOk(order, starts, true, if order == [] then None else Some(order[|order| - 1]))
  {
    if order != [] {
      forall m | m in starts ensures m <= order[|order| - 1] {
        var i :| 0 <= i < |order| && order[i] == m;
      }
      assert order[|order| - 1] in Elements(order);
    }
  }

  lemma DropFirst(order: seq<int>, starts: set<int>)
    requires Increasing(order) && Elements(order) == starts && order != []
    ensures Increasing(order[1..]) && Elements(order[1..]) == starts - {order[0]}
    ensures order[0] in starts && forall m :: m in starts ==> order[0] <= m
  {
    var rest := order[1..];
    assert order == [order[0]] + rest;
    forall i | 0 <= i < |rest| ensures order[0] < rest[i] {
      assert rest[i] == order[i + 1];
    }
    forall i, j | 0 <= i < j < |rest| ensures rest[i] < rest[j] {
      assert rest[i] == order[i + 1] && rest[j] == order[j + 1];
    }
  }

  lemma KeptStep(buckets: Buckets, keep: set<int>, m: int)
    ensures Kept(buckets, keep) - {m} == Kept(buckets, keep - {m})
    ensures keep <= buckets.Keys ==> Kept(buckets, keep).Keys == keep && |Kept(buckets, keep)| == |keep|
  {
    if keep <= buckets.Keys {
      assert Kept(buckets, keep).Keys == keep;
      assert |Kept(buckets, keep)| == |Kept(buckets, keep).Keys|;
    }
  }

  lemma KeptAll(buckets: Buckets)
    ensures Kept(buckets, buckets.Keys) == buckets
  {
  }

  lemma KeptWellFormed(buckets: Buckets, ids: seq<string>, keep: set<int>)
    requires WellFormed(buckets, ids)
    ensures WellFormed(Kept(buckets, keep), ids)
  {
  }

  function FromCutoff(starts: set<int>, cutoff: int): set<int> {
    set m | m in starts && m >= cutoff
  }

  /** Dropping what is before the cutoff and then what is beyond the cap leaves exactly the survivors. */
  lemma SurvivorsInTwoSteps(starts: set<int>, cutoff: int)
    ensures Newest(FromCutoff(starts, cutoff), MAX_BUCKETS) == Survivors(starts, cutoff)
  {
    forall m | m in starts && m >= cutoff ensures Newer(FromCutoff(starts, cutoff), m) == Newer(starts, m) {
    }
  }

  lemma DroppedInTwoSteps(all: Buckets, later: Buckets, left: Buckets, cutoff: int)
    requires later == Kept(all, FromCutoff(all.Keys, cutoff)) && left == Kept(later, Newest(later.Keys, MAX_BUCKETS))
    ensures left == Kept(all, Survivors(all.Keys, cutoff)) && left.Keys == Survivors(all.Keys, cutoff)
    ensures left.Keys != all.Keys <==> later.Keys != all.Keys || left.Keys != later.Keys
  {
    SurvivorsInTwoSteps(all.Keys, cutoff);
    assert later.Keys == FromCutoff(all.Keys, cutoff);
    assert left.Keys == Newest(later.Keys, MAX_BUCKETS);
  }

  lemma EmptyOrder(order: seq<int>, buckets: Buckets)
    requires Elements(order) == buckets.Keys
    ensures |buckets| == 0 <==> order == []
    ensures buckets.Keys == {} <==> order == []
  {
    assert |buckets.Keys| == |buckets|;
    if order != [] {
      assert order[0] in Elements(order);
    }
  }

  /** The newest start survives if any does. */
  lemma LatestSurvives(starts: set<int>, cutoff: int, latest: int)
    requires latest in starts && forall m :: m in starts ==> m <= latest
    ensures Survivors(starts, cutoff) != {} ==> latest in Survivors(starts, cutoff)
  {
    assert Newer(starts, latest) == {};
  }

  lemma Replaced(buckets: Buckets, ids: seq<string>, m: int, b: Bucket)
    requires WellFormed(buckets, ids) && m in buckets && Shaped(b, ids)
    ensures WellFormed(buckets[m := b], ids) && buckets[m := b].Keys == buckets.Keys
  {
    assert buckets[m := b].Keys == buckets.Keys;
  }

  // --- The loop over the nodes ----------------------------------------------------------------

  function CreditInterval(buckets: Buckets, ids: seq<string>, meter: Meter, interval: Option<Ramp>): Buckets
    requires interval.Some? ==> interval.value.Valid()
  {
    match interval
    case None => buckets
    case Some(r) => Credited(buckets, ids, meter, r, r.previous.atMs, r.current.atMs)
  }

  function IntervalTo(baselines: map<string, Sample>, id: string, watts: Option<real>, t: real,
                      highWater: Option<real>): (r: Option<Ramp>)
    ensures r.Some? ==> r.value.Valid()
  {
    if watts.None? then None else Interval(BaselineOf(baselines, id), Sample(t, watts.value), highWater)
  }

  function ReadingOf(readings: map<string, real>, id: string): Option<real> {
    if id in readings then Some(readings[id]) else None
  }

  function NewBaseline(readings: map<string, real>, t: real, id: string): Option<Sample> {
    if id in readings then Some(Sample(t, readings[id])) else None
  }

  /** What the loop over the nodes has done after its first `k` turns. */
  predicate NodesDone(st: State, ids: seq<string>, readings: map<string, real>, t: real, k: nat,
                      baselines: map<string, Sample>, valid: map<string, real>, integrated: bool)
    requires k <= |ids|
  {
    && (forall id :: id in baselines ==> id in ids)
    && (forall j :: 0 <= j < k ==> BaselineOf(baselines, ids[j]) == NewBaseline(readings, t, ids[j]))
    && (forall j :: k <= j < |ids| ==> BaselineOf(baselines, ids[j]) == BaselineOf(st.baselines, ids[j]))
    && (forall id :: id in valid ==> id in readings && valid[id] == readings[id])
    && (forall j :: 0 <= j < k && ids[j] in readings ==> ids[j] in valid)
    && (integrated <==> exists j :: 0 <= j < k && NodeInterval(st, readings, t, ids[j]).Some?)
  }

  lemma NodesStart(st: State, ids: seq<string>, readings: map<string, real>, t: real)
    requires forall id :: id in st.baselines ==> id in ids
    ensures NodesDone(st, ids, readings, t, 0, st.baselines, map[], false)
    ensures CreditNodes(st, ids, readings, t, 0) == st.buckets
  {
  }

  lemma NodesStep(st: State, ids: seq<string>, readings: map<string, real>, t: real, k: nat,
                  baselines: map<string, Sample>, valid: map<string, real>, integrated: bool, watts: Option<real>,
                  highWater: Option<real>)
    requires k < |ids| && Distinct(ids) && NodesDone(st, ids, readings, t, k, baselines, valid, integrated)
    requires watts == ReadingOf(readings, ids[k]) && highWater == st.highWater
    ensures var id := ids[k];
            NodesDone(st, ids, readings, t, k + 1,
                      if watts.None? then baselines - {id} else baselines[id := Sample(t, watts.value)],
                      if watts.None? then valid else valid[id := watts.value],
                      integrated || IntervalTo(baselines, id, watts, t, highWater).Some?)
  {
    var id := ids[k];
    assert BaselineOf(baselines, id) == BaselineOf(st.baselines, id);
    assert IntervalTo(baselines, id, watts, t, highWater) == NodeInterval(st, readings, t, id);
    var baselines' := if watts.None? then baselines - {id} else baselines[id := Sample(t, watts.value)];
    forall j | 0 <= j < |ids| && j != k ensures BaselineOf(baselines', ids[j]) == BaselineOf(baselines, ids[j]) {
      assert ids[j] != id;
    }
  }

  lemma CreditStep(st: State, ids: seq<string>, readings: map<string, real>, t: real, k: nat,
                   baselines: map<string, Sample>, watts: Option<real>, valid: map<string, real>, integrated: bool)
    requires k < |ids| && NodesDone(st, ids, readings, t, k, baselines, valid, integrated)
    requires watts == ReadingOf(readings, ids[k])
    ensures CreditNodes(st, ids, readings, t, k + 1)
         == CreditInterval(CreditNodes(st, ids, readings, t, k), ids, Node(ids[k]),
                           IntervalTo(baselines, ids[k], watts, t, st.highWater))
  {
    hide Credited;
    assert BaselineOf(baselines, ids[k]) == BaselineOf(st.baselines, ids[k]);
    assert IntervalTo(baselines, ids[k], watts, t, st.highWater) == NodeInterval(st, readings, t, ids[k]);
  }

  lemma NodesEnd(st: State, ids: seq<string>, readings: map<string, real>, t: real,
                 baselines: map<string, Sample>, valid: map<string, real>, integrated: bool)
    requires NodesDone(st, ids, readings, t, |ids|, baselines, valid, integrated) && ValidReadings(readings, ids)
    ensures baselines == map id | id in ids && id in readings :: Sample(t, readings[id])
    ensures valid == readings
    ensures integrated <==> exists id :: id in ids && NodeInterval(st, readings, t, id).Some?
  {
    forall id | id in ids
      ensures BaselineOf(baselines, id) == NewBaseline(readings, t, id)
      ensures id in readings ==> id in valid
    {
      var j :| 0 <= j < |ids| && ids[j] == id;
    }
    assert valid.Keys == readings.Keys;
    var expected := map id | id in ids && id in readings :: Sample(t, readings[id]);
    forall id ensures id in baselines <==> id in expected {
      if id in ids { assert BaselineOf(baselines, id) == NewBaseline(readings, t, id); }
    }
    forall id | id in expected ensures baselines[id] == expected[id] {
      assert BaselineOf(baselines, id) == NewBaseline(readings, t, id);
    }
    if id :| id in ids && NodeInterval(st, readings, t, id).Some? {
      var j :| 0 <= j < |ids| && ids[j] == id;
    }
  }

  lemma {:induction false} CountIds(ids: seq<string>)
    requires Distinct(ids)
    ensures |set id | id in ids| == |ids|
  {
    if ids != [] {
      var rest := ids[..|ids| - 1];
      CountIds(rest);
      assert (set id | id in ids) == (set id | id in rest) + {ids[|ids| - 1]};
    }
  }

  /** Every node has a reading exactly when there are as many readings as nodes. */
  lemma FullFleetBySize(ids: seq<string>, readings: map<string, real>)
    requires Distinct(ids) && readings.Keys <= set id | id in ids
    ensures FullFleet(ids, readings) <==> |ids| > 0 && |readings| == |ids|
  {
    var all := set id | id in ids;
    CountIds(ids);
    SubsetSize(readings.Keys, all);
    assert |readings.Keys| == |readings|;
    if FullFleet(ids, readings) { assert readings.Keys == all; }
  }

  function NodesCredited(st: State, ids: seq<string>, readings: map<string, real>, t: real): State {
    st.(buckets := CreditNodes(st, ids, readings, t, |ids|),
        baselines := map id | id in ids && id in readings :: Sample(t, readings[id]))
  }

  function NewFleetBaseline(ids: seq<string>, readings: map<string, real>, t: real): Option<Sample> {
    if FullFleet(ids, readings) then Some(Sample(t, Total(ids, readings))) else None
  }

  lemma ReadingsOfFleet(snapshots: seq<Snapshot>, ids: seq<string>)
    ensures Readings(snapshots, ids).Keys <= set id | id in ids
  {
  }

  /** Nodes, then the fleet, then the high-water mark: together they are `Integrated`. */
  lemma IntegratedInSteps(st: State, ids: seq<string>, readings: map<string, real>, t: real,
                          nodes: State, nodesIntegrated: bool, fleetIntegrated: bool, end: State)
    requires nodes == NodesCredited(st, ids, readings, t)
    requires nodesIntegrated <==> exists id :: id in ids && NodeInterval(st, readings, t, id).Some?
    requires fleetIntegrated <==> FleetInterval(nodes, ids, readings, t).Some?
    requires var fleet :=
             nodes.(buckets := CreditInterval(nodes.buckets, ids, Fleet, FleetInterval(nodes, ids, readings, t)),
                                 fleetBaseline := NewFleetBaseline(ids, readings, t));
             end == if (nodesIntegrated || fleetIntegrated) && ValidHighWater(t)
                    then fleet.(highWater := Advance(fleet.highWater, t)) else fleet
    ensures end == Integrated(st, ids, readings, t)
    ensures fleetIntegrated <==> FleetInterval(st, ids, readings, t).Some?
  {
    hide Credited, CreditNodes, Advance, Total, NodeInterval;
    assert FleetInterval(st, ids, readings, t) == FleetInterval(nodes, ids, readings, t);
  }

  lemma CounterThere(st: State, reading: TokenReading, t: real)
    ensures !MustRebase(st, reading, t) ==> st.tokenCounter.Some?
  {
  }

  lemma CountedInSteps(st: State, ids: seq<string>, readings: map<string, real>, tokens: Option<TokenReading>, t: real,
                       integrated: State, counted: State)
    requires integrated == Integrated(AfterRollback(st, t), ids, readings, t)
    requires counted == TokensRecorded(integrated, ids, tokens, t,
                                       FleetInterval(AfterRollback(st, t), ids, readings, t).Some?)
                        .(latestRecordAt := Some(t), dirty := true)
    ensures counted == Counted(st, ids, readings, tokens, t)
  {
    hide Integrated, AfterRollback, FleetInterval;
  }
}
