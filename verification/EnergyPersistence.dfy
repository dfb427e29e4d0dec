/**
  The state file of the fleet energy tracker: what `flush` writes, what `_load` accepts, and the
  proof that the two fit (server/energy/FleetEnergyTracker.js:625-813).
 */
module EnergyPersistence {
  import opened Options
  import opened EnergyArithmetic
  import opened EnergyBuckets
  import opened EnergyState
  import opened EnergyInvariant
  import opened FiniteSets
  import opened RealArithmetic

  const FILE_VERSION := 1
  const MAX_NODE_WH_PER_MINUTE := 4.0

  /** A bucket as it stands in the file, right or wrong. */
  datatype RawBucket = RawBucket(minuteStartMs: int, contents: Bucket, hasCoveredTokens: bool)

  datatype File = File(
    version: int,
    nodeIds: Option<seq<string>>,
    integrationHighWaterMs: Option<int>,
    tokenCounter: Option<TokenObservation>,
    buckets: seq<RawBucket>)

  // --- The validator, with its relative tolerance as a parameter ------------------------------

  function Tolerance(tolerance: real, limit: real): real {
    tolerance * Max(1.0, Max(limit, -limit))
  }

  predicate Exceeds(value: real, maximum: real, tolerance: real) {
    value > maximum + Tolerance(tolerance, maximum)
  }

  predicate FallsBelow(value: real, minimum: real, tolerance: real) {
    value < minimum - Tolerance(tolerance, minimum)
  }

  predicate ValidStart(m: int) {
    0 <= m <= MAX_SAFE_INTEGER && m % MINUTE_MS == 0
  }

  predicate ValidNode(nodeWh: real, nodeCoverageMs: real, tolerance: real) {
    && 0.0 <= nodeWh <= MAX_NODE_WH_PER_MINUTE
    && 0.0 <= nodeCoverageMs <= MINUTE
    && !Exceeds(nodeWh, 240.0 * nodeCoverageMs / MS_PER_HOUR, tolerance)
    && !FallsBelow(nodeWh, MIN_NODE_WATTS * nodeCoverageMs / MS_PER_HOUR, tolerance)
  }

  predicate ValidFleetEnergy(wattMs: real, coverageMs: real, maximumWatts: real, minimumWatts: real,
                             nodesWattMs: real, tolerance: real) {
    && 0.0 <= wattMs <= maximumWatts * MINUTE
    && 0.0 <= coverageMs <= MINUTE
    && !Exceeds(wattMs, maximumWatts * coverageMs, tolerance)
    && !FallsBelow(wattMs, minimumWatts * coverageMs, tolerance)
    && !Exceeds(wattMs, nodesWattMs, tolerance)
  }

  predicate ValidFleet(b: Bucket, ids: seq<string>, tolerance: real) {
    && ValidFleetEnergy(b.fleetWattMs, b.fleetCoverageMs, 240.0 * |ids| as real, MIN_NODE_WATTS * |ids| as real,
                        Total(ids, b.nodeWh) * MS_PER_HOUR, tolerance)
    && (forall id :: id in ids ==> !Exceeds(b.fleetCoverageMs, Entry(b.nodeCoverageMs, id), tolerance))
  }

  predicate ValidCount(n: int) {
    0 <= n <= MAX_SAFE_INTEGER
  }

  predicate ValidContents(raw: RawBucket, ids: seq<string>, tolerance: real) {
    var b := raw.contents;
    && Shaped(b, ids)
    && (forall id :: id in ids ==> ValidNode(Entry(b.nodeWh, id), Entry(b.nodeCoverageMs, id), tolerance))
    && ValidFleet(b, ids, tolerance)
    && ValidCount(b.outputTokens)
    && (raw.hasCoveredTokens ==> ValidCount(b.coveredOutputTokens))
  }

  function Contents(raw: RawBucket): Bucket {
    if raw.hasCoveredTokens then raw.contents else raw.contents.(coveredOutputTokens := 0)
  }

  // --- Loading --------------------------------------------------------------------------------

  /** The first bucket of the file that claims the minute `m`. */
  function FirstClaim(raws: seq<RawBucket>, m: int): Option<RawBucket> {
    if raws == [] then None
    else if raws[0].minuteStartMs == m then Some(raws[0])
    else FirstClaim(raws[1..], m)
  }

  function Claims(raws: seq<RawBucket>): set<int> {
    set raw | raw in raws :: raw.minuteStartMs
  }

  predicate Accepts(raws: seq<RawBucket>, m: int, ids: seq<string>, tolerance: real) {
    && ValidStart(m)
    && FirstClaim(raws, m).Some?
    && ValidContents(FirstClaim(raws, m).value, ids, tolerance)
  }

  /** Of all the buckets in the file that claim one minute, the first counts, if it is valid. */
  function Accepted(raws: seq<RawBucket>, ids: seq<string>, tolerance: real): Buckets {
    map m | m in Claims(raws) && Accepts(raws, m, ids, tolerance) :: Contents(FirstClaim(raws, m).value)
  }

  function CoveredStarts(buckets: Buckets, ids: seq<string>): set<int> {
    set m | m in buckets && Covered(buckets[m], ids)
  }

  /** `m` is the newest covered minute. */
  predicate IsLatestCovered(buckets: Buckets, ids: seq<string>, m: int) {
    m in CoveredStarts(buckets, ids) && forall n :: n in CoveredStarts(buckets, ids) ==> n <= m
  }

  function LongestCoverage(b: Bucket, ids: seq<string>): real {
    if ids == [] then b.fleetCoverageMs
    else Max(LongestCoverage(b, ids[..|ids| - 1]), Entry(b.nodeCoverageMs, ids[|ids| - 1]))
  }

  /** A persisted high-water mark is believed if it fits the newest covered minute `m`. */
  predicate ValidPersisted(highWater: Option<int>, buckets: Buckets, ids: seq<string>, m: int)
    requires m in buckets
  {
    && highWater.Some?
    && ValidCount(highWater.value)
    && m as real + LongestCoverage(buckets[m], ids) <= highWater.value as real
    && highWater.value <= m + MINUTE_MS
  }

  ghost function LoadedHighWater(persisted: Option<int>, buckets: Buckets, ids: seq<string>): Option<real> {
    if CoveredStarts(buckets, ids) == {} then None
    else
      LatestCoveredExists(buckets, ids);
      var m :| IsLatestCovered(buckets, ids, m);
      if ValidPersisted(persisted, buckets, ids, m) then Some(persisted.value as real)
      else Some(Min((m + MINUTE_MS) as real, MAX_SAFE_INTEGER as real))
  }

  /** The persisted high-water mark needs no repair. */
  ghost predicate Believed(persisted: Option<int>, buckets: Buckets, ids: seq<string>) {
    if CoveredStarts(buckets, ids) == {} then persisted.None?
    else forall m :: IsLatestCovered(buckets, ids, m) ==> ValidPersisted(persisted, buckets, ids, m)
  }

  lemma LatestCoveredExists(buckets: Buckets, ids: seq<string>)
    requires CoveredStarts(buckets, ids) != {}
    ensures exists m :: IsLatestCovered(buckets, ids, m)
  {
    var m := MaximumExists(CoveredStarts(buckets, ids));
    assert IsLatestCovered(buckets, ids, m);
  }

  predicate IsLoadable(file: File, ids: seq<string>) {
    && file.version == FILE_VERSION
    && (file.nodeIds.Some? ==> |file.nodeIds.value| == |ids| && forall id :: id in file.nodeIds.value ==> id in ids)
  }

  predicate ValidCounter(counter: Option<TokenObservation>, ids: seq<string>) {
    counter.Some? && ValidTokens(counter.value.source, ids)
  }

  /** The state that `_load` builds from a file, before it prunes. */
  ghost function Loaded(file: File, ids: seq<string>, tolerance: real): State {
    if !IsLoadable(file, ids) then FRESH
    else
      var buckets := Accepted(file.buckets, ids, tolerance);
      var highWater := LoadedHighWater(file.integrationHighWaterMs, buckets, ids);
      FRESH.(buckets := buckets,
             highWater := highWater,
             tokenCounter := if ValidCounter(file.tokenCounter, ids) then file.tokenCounter else None,
             tokenNeedsRebase := ValidCounter(file.tokenCounter, ids),
             dirty := file.nodeIds.None? || |buckets| != |file.buckets|
               || !Believed(file.integrationHighWaterMs, buckets, ids))
  }

  // --- Flushing -------------------------------------------------------------------------------

  function Ceiling(x: real): (c: int)
    ensures (c as real) - 1.0 < x <= c as real
  {
    -((-x).Floor)
  }

  function RawOf(starts: seq<int>, buckets: Buckets): seq<RawBucket>
    requires forall i :: 0 <= i < |starts| ==> starts[i] in buckets
  {
    if starts == [] then [] else [RawBucket(starts[0], buckets[starts[0]], true)] + RawOf(starts[1..], buckets)
  }

  /** The file that `flush` writes. */
  ghost function FileOf(st: State, ids: seq<string>): File {
    SortedElements(st.buckets.Keys);
    File(FILE_VERSION, Some(ids), if st.highWater.None? then None else Some(Ceiling(st.highWater.value)),
         st.tokenCounter, RawOf(Sorted(st.buckets.Keys), st.buckets))
  }

  // --- The validator's bounds are the invariant's ----------------------------------------------

  lemma LongestCoverageIs(b: Bucket, ids: seq<string>, limit: real)
    ensures CoverageWithin(b, ids, limit) <==> LongestCoverage(b, ids) <= limit
  {
    if ids != [] {
      LongestCoverageIs(b, ids[..|ids| - 1], limit);
      assert forall id :: id in ids <==> id in ids[..|ids| - 1] || id == ids[|ids| - 1];
    }
  }

  lemma WithinBound(value: real, bound: real, tolerance: real)
    requires tolerance >= 0.0
    ensures value <= bound ==> !Exceeds(value, bound, tolerance)
    ensures value >= bound ==> !FallsBelow(value, bound, tolerance)
  {
    TimesMonotone(tolerance, 0.0, Max(1.0, Max(bound, -bound)));
  }

  lemma TimesMonotone(k: real, a: real, b: real)
    requires k >= 0.0 && a <= b
    ensures k * a <= k * b
  {
    assert k * (b - a) >= 0.0;
  }

  lemma ExactBound(value: real, bound: real)
    ensures Exceeds(value, bound, 0.0) <==> value > bound
    ensures FallsBelow(value, bound, 0.0) <==> value < bound
  {
  }

  /** Whatever the tolerance, a bucket that meets the invariant passes the validator. */
  lemma InvariantPassesValidator(m: int, b: Bucket, ids: seq<string>, tolerance: real)
    requires tolerance >= 0.0 && BucketOk(b, ids) && CoverageWithin(b, ids, MINUTE)
    ensures ValidContents(RawBucket(m, b, true), ids, tolerance)
  {
    forall id | id in ids
      ensures ValidNode(Entry(b.nodeWh, id), Entry(b.nodeCoverageMs, id), tolerance)
      ensures !Exceeds(b.fleetCoverageMs, Entry(b.nodeCoverageMs, id), tolerance)
    {
      assert NodeOk(b, id);
      var c := Entry(b.nodeCoverageMs, id);
      WithinBound(Entry(b.nodeWh, id), 240.0 * c / MS_PER_HOUR, tolerance);
      WithinBound(Entry(b.nodeWh, id), MIN_NODE_WATTS * c / MS_PER_HOUR, tolerance);
      WithinBound(b.fleetCoverageMs, c, tolerance);
    }
    FleetPassesValidator(b, ids, tolerance);
  }

  lemma FleetPassesValidator(b: Bucket, ids: seq<string>, tolerance: real)
    requires tolerance >= 0.0 && FleetOk(b, ids) && b.fleetCoverageMs <= MINUTE
    requires forall id :: id in ids ==> !Exceeds(b.fleetCoverageMs, Entry(b.nodeCoverageMs, id), tolerance)
    ensures ValidFleet(b, ids, tolerance)
  {
    FleetEnergyPasses(b.fleetWattMs, b.fleetCoverageMs, 240.0 * |ids| as real, MIN_NODE_WATTS * |ids| as real,
                      Total(ids, b.nodeWh) * MS_PER_HOUR, tolerance);
  }

  lemma FleetEnergyPasses(wattMs: real, coverageMs: real, hi: real, lo: real, nodesWattMs: real, tolerance: real)
    requires tolerance >= 0.0 && 0.0 <= lo <= hi && 0.0 <= coverageMs <= MINUTE
    requires EnergyWithin(lo, hi, coverageMs, wattMs) && wattMs <= nodesWattMs
    ensures ValidFleetEnergy(wattMs, coverageMs, hi, lo, nodesWattMs, tolerance)
  {
    WithinBound(wattMs, hi * coverageMs, tolerance);
    WithinBound(wattMs, lo * coverageMs, tolerance);
    WithinBound(wattMs, nodesWattMs, tolerance);
    Products(lo, coverageMs, lo * coverageMs, 0.0);
    Products(hi, coverageMs, hi * coverageMs, hi * MINUTE);
  }

  lemma Products(k: real, coverageMs: real, product: real, limit: real)
    requires k >= 0.0 && 0.0 <= coverageMs <= MINUTE && product == k * coverageMs
    ensures product >= 0.0
    ensures limit == k * MINUTE ==> product <= limit
  {
    TimesMonotone(k, coverageMs, MINUTE);
  }

  /** Without tolerance the validator lets through nothing that breaks the invariant. */
  lemma ValidatorEnforcesInvariant(raw: RawBucket, ids: seq<string>)
    requires ValidContents(raw, ids, 0.0)
    ensures BucketOk(Contents(raw), ids) && CoverageWithin(Contents(raw), ids, MINUTE)
  {
    var b := Contents(raw);
    forall id | id in ids ensures NodeOk(b, id) && Entry(b.nodeCoverageMs, id) <= MINUTE {
      assert ValidNode(Entry(b.nodeWh, id), Entry(b.nodeCoverageMs, id), 0.0);
      ExactNode(Entry(b.nodeWh, id), Entry(b.nodeCoverageMs, id));
      ExactBound(b.fleetCoverageMs, Entry(b.nodeCoverageMs, id));
    }
    ExactFleetEnergy(b.fleetWattMs, b.fleetCoverageMs, 240.0 * |ids| as real, MIN_NODE_WATTS * |ids| as real,
                     Total(ids, b.nodeWh) * MS_PER_HOUR);
  }

  /** The validator without tolerance is the invariant of a bucket, no more and no less. */
  lemma ValidContentsIff(raw: RawBucket, ids: seq<string>)
    ensures ValidContents(raw, ids, 0.0) <==> BucketOk(Contents(raw), ids) && CoverageWithin(Contents(raw), ids, MINUTE)
  {
    hide BucketOk, CoverageWithin, ValidNode, ValidFleet;
    if ValidContents(raw, ids, 0.0) { ValidatorEnforcesInvariant(raw, ids); }
    if BucketOk(Contents(raw), ids) && CoverageWithin(Contents(raw), ids, MINUTE) {
      InvariantPassesValidator(raw.minuteStartMs, Contents(raw), ids, 0.0);
      UnreadTokens(raw.contents, Contents(raw), ids);
    }
  }

  lemma UnreadTokens(b: Bucket, b': Bucket, ids: seq<string>)
    requires b' == b.(coveredOutputTokens := b'.coveredOutputTokens)
    ensures ValidFleet(b, ids, 0.0) <==> ValidFleet(b', ids, 0.0)
  {
  }

  lemma ExactNode(nodeWh: real, coverageMs: real)
    requires ValidNode(nodeWh, coverageMs, 0.0)
    ensures EnergyWithin(MIN_NODE_WATTS, MAX_NODE_WATTS, coverageMs, nodeWh * MS_PER_HOUR)
  {
    ExactBound(nodeWh, 240.0 * coverageMs / MS_PER_HOUR);
    ExactBound(nodeWh, MIN_NODE_WATTS * coverageMs / MS_PER_HOUR);
  }

  lemma ExactFleetEnergy(wattMs: real, coverageMs: real, hi: real, lo: real, nodesWattMs: real)
    requires ValidFleetEnergy(wattMs, coverageMs, hi, lo, nodesWattMs, 0.0)
    ensures EnergyWithin(lo, hi, coverageMs, wattMs) && wattMs <= nodesWattMs
  {
    ExactBound(wattMs, hi * coverageMs);
    ExactBound(wattMs, lo * coverageMs);
    ExactBound(wattMs, nodesWattMs);
  }

  // --- Loading any file -----------------------------------------------------------------------

  lemma {:induction false} FirstClaimIs(raws: seq<RawBucket>, m: int)
    ensures FirstClaim(raws, m).Some? ==>
              FirstClaim(raws, m).value in raws && FirstClaim(raws, m).value.minuteStartMs == m
    ensures FirstClaim(raws, m).Some? <==> m in Claims(raws)
  {
    if raws != [] {
      FirstClaimIs(raws[1..], m);
      assert raws == [raws[0]] + raws[1..];
      assert Claims(raws) == {raws[0].minuteStartMs} + Claims(raws[1..]);
    }
  }

  lemma NothingCovered(buckets: Buckets, ids: seq<string>, m: int, highWater: Option<real>)
    requires m in buckets && BucketOk(buckets[m], ids) && !Covered(buckets[m], ids)
    ensures CoverageWithin(buckets[m], ids, ElapsedTo(m, highWater))
  {
    var b := buckets[m];
    assert ElapsedTo(m, highWater) >= 0.0;
    forall id | id in ids ensures Entry(b.nodeCoverageMs, id) <= 0.0 {
    }
  }

  /** A high-water mark in or at the end of the newest covered minute bounds all coverage. */
  lemma HighWaterFits(buckets: Buckets, ids: seq<string>, latest: int, highWater: real)
    requires WellFormed(buckets, ids) && IsLatestCovered(buckets, ids, latest) && latest >= 0
    requires forall m :: m in buckets ==> m <= MAX_SAFE_INTEGER && BucketOk(buckets[m], ids)
    requires forall m :: m in buckets && 0 <= m <= latest ==> CoverageWithin(buckets[m], ids, MINUTE)
    requires CoverageWithin(buckets[latest], ids, highWater - latest as real)
    requires highWater <= (latest + MINUTE_MS) as real && highWater <= MAX_SAFE_INTEGER as real
    ensures BucketsOk(buckets, ids, Some(highWater)) && HighWaterBacked(buckets, ids, Some(highWater))
    ensures MinuteEndingAtOrAfter(highWater) == latest
  {
    assert Covered(buckets[latest], ids);
    assert highWater > latest as real;
    EndsIn(latest, highWater);
    forall m | m in buckets && m >= 0 ensures CoverageWithin(buckets[m], ids, ElapsedTo(m, Some(highWater))) {
      MinuteFits(buckets, ids, latest, highWater, m);
    }
  }

  lemma MinuteFits(buckets: Buckets, ids: seq<string>, latest: int, highWater: real, m: int)
    requires WellFormed(buckets, ids) && IsLatestCovered(buckets, ids, latest) && latest >= 0
    requires m in buckets && m >= 0 && BucketOk(buckets[m], ids)
    requires m <= latest ==> CoverageWithin(buckets[m], ids, MINUTE)
    requires CoverageWithin(buckets[latest], ids, highWater - latest as real)
    requires (latest as real) < highWater <= (latest + MINUTE_MS) as real
    ensures CoverageWithin(buckets[m], ids, ElapsedTo(m, Some(highWater)))
  {
    if m < latest {
      assert m + MINUTE_MS <= latest;
      assert Elapsed(m, highWater) == MINUTE;
    } else if m > latest {
      assert m !in CoveredStarts(buckets, ids);
      NothingCovered(buckets, ids, m, Some(highWater));
    } else {
      assert Elapsed(m, highWater) == highWater - m as real;
    }
  }

  lemma EndsIn(m: int, t: real)
    requires m % MINUTE_MS == 0 && m as real < t <= m as real + MINUTE
    ensures MinuteEndingAtOrAfter(t) == m
  {
    var n := MinuteEndingAtOrAfter(t);
    assert m < n + MINUTE_MS && n < m + MINUTE_MS;
  }

  lemma AcceptedOk(raws: seq<RawBucket>, ids: seq<string>)
    ensures WellFormed(Accepted(raws, ids, 0.0), ids)
    ensures forall m :: m in Accepted(raws, ids, 0.0) ==>
              0 <= m <= MAX_SAFE_INTEGER && BucketOk(Accepted(raws, ids, 0.0)[m], ids)
                && CoverageWithin(Accepted(raws, ids, 0.0)[m], ids, MINUTE)
  {
    var buckets := Accepted(raws, ids, 0.0);
    forall m | m in buckets
      ensures BucketOk(buckets[m], ids) && CoverageWithin(buckets[m], ids, MINUTE)
    {
      ValidatorEnforcesInvariant(FirstClaim(raws, m).value, ids);
    }
  }

  /**
    Loading any file whatever, damaged or forged, ends in a state that meets the invariant, high-water mark
    included, so that all that is proved from the invariant holds of it. That is not to say that `record` could
    have produced it: `EnergyReach.RecordableIff` names what else that takes. (The minutes that reach beyond the
    largest safe integer are left out: there the repaired mark is capped below the end of the minute.)
   */
  lemma LoadEstablishesInv(file: File, ids: seq<string>)
    requires forall raw :: raw in file.buckets ==> raw.minuteStartMs + MINUTE_MS <= MAX_SAFE_INTEGER
    ensures Inv(Loaded(file, ids, 0.0), ids)
  {
    if ids != [] { assert ids[0] in ids; }
    if IsLoadable(file, ids) {
      var buckets := Accepted(file.buckets, ids, 0.0);
      AcceptedOk(file.buckets, ids);
      forall m | m in buckets ensures m + MINUTE_MS <= MAX_SAFE_INTEGER {
        FirstClaimIs(file.buckets, m);
      }
      LoadedHighWaterFits(file.integrationHighWaterMs, buckets, ids);
    }
  }

  lemma LoadedHighWaterFits(persisted: Option<int>, buckets: Buckets, ids: seq<string>)
    requires WellFormed(buckets, ids)
    requires forall m :: m in buckets ==> m + MINUTE_MS <= MAX_SAFE_INTEGER
    requires forall m :: m in buckets ==> 0 <= m && BucketOk(buckets[m], ids) && CoverageWithin(buckets[m], ids, MINUTE)
    ensures BucketsOk(buckets, ids, LoadedHighWater(persisted, buckets, ids))
    ensures HighWaterBacked(buckets, ids, LoadedHighWater(persisted, buckets, ids))
  {
    hide BucketOk, CoverageWithin, ValidPersisted, WellFormed, BucketsOk, HighWaterBacked;
    if CoveredStarts(buckets, ids) == {} {
      NoneCoveredFits(buckets, ids);
    } else {
      LatestCoveredExists(buckets, ids);
      var latest :| IsLatestCovered(buckets, ids, latest);
      forall m | IsLatestCovered(buckets, ids, m) ensures m == latest {
      }
      var highWater := LoadedHighWater(persisted, buckets, ids).value;
      LoadedMarkFits(persisted, buckets[latest], buckets, ids, latest, highWater);
      HighWaterFits(buckets, ids, latest, highWater);
    }
  }

  /** A mark that is believed, or the end of the minute, leaves room for the minute's coverage. */
  lemma LoadedMarkFits(persisted: Option<int>, b: Bucket, buckets: Buckets, ids: seq<string>, latest: int,
                       highWater: real)
    requires latest in buckets && b == buckets[latest] && CoverageWithin(b, ids, MINUTE)
    requires latest + MINUTE_MS <= MAX_SAFE_INTEGER
    requires highWater == if ValidPersisted(persisted, buckets, ids, latest) then persisted.value as real
                          else Min((latest + MINUTE_MS) as real, MAX_SAFE_INTEGER as real)
    ensures CoverageWithin(b, ids, highWater - latest as real)
    ensures highWater <= (latest + MINUTE_MS) as real && highWater <= MAX_SAFE_INTEGER as real
  {
    LongestCoverageIs(b, ids, MINUTE);
    LongestCoverageIs(b, ids, highWater - latest as real);
    hide CoverageWithin, LongestCoverage;
  }

  lemma NoneCoveredFits(buckets: Buckets, ids: seq<string>)
    requires WellFormed(buckets, ids) && CoveredStarts(buckets, ids) == {}
    requires forall m :: m in buckets ==> m <= MAX_SAFE_INTEGER && BucketOk(buckets[m], ids)
    ensures BucketsOk(buckets, ids, None) && HighWaterBacked(buckets, ids, None)
  {
    forall m | m in buckets ensures !Covered(buckets[m], ids) && CoverageWithin(buckets[m], ids, ElapsedTo(m, None)) {
      assert m !in CoveredStarts(buckets, ids);
      NothingCovered(buckets, ids, m, None);
    }
  }

  // --- Flushing and loading again -------------------------------------------------------------

  lemma {:induction false} FirstClaimInRaw(starts: seq<int>, buckets: Buckets, m: int)
    requires forall i :: 0 <= i < |starts| ==> starts[i] in buckets
    ensures FirstClaim(RawOf(starts, buckets), m) == if m in starts then Some(RawBucket(m, buckets[m], true)) else None
    ensures |RawOf(starts, buckets)| == |starts|
  {
    if starts != [] {
      FirstClaimInRaw(starts[1..], buckets, m);
      assert RawOf(starts, buckets)[1..] == RawOf(starts[1..], buckets);
    }
  }

  function FromZero(buckets: Buckets): Buckets {
    map m | m in buckets && m >= 0 :: buckets[m]
  }

  /** Some non-negative minute is covered. */
  predicate AnyCovered(st: State, ids: seq<string>) {
    exists m :: m in st.buckets && m >= 0 && Covered(st.buckets[m], ids)
  }

  /** The validator accepts exactly the flushed buckets that start at or after zero, whatever its tolerance. */
  lemma AcceptsFlushed(st: State, ids: seq<string>, tolerance: real)
    requires Inv(st, ids) && tolerance >= 0.0
    ensures forall m :: m in st.buckets ==> (Accepts(FileOf(st, ids).buckets, m, ids, tolerance) <==> m >= 0)
    ensures Accepted(FileOf(st, ids).buckets, ids, tolerance) == FromZero(st.buckets)
    ensures |FileOf(st, ids).buckets| == |st.buckets|
  {
    var raws := FileOf(st, ids).buckets;
    FlushedClaims(st, ids);
    forall m | m in st.buckets ensures Accepts(raws, m, ids, tolerance) <==> m >= 0 {
      AcceptsFlushedBucket(st, ids, tolerance, m, raws);
    }
    AcceptedIs(raws, ids, tolerance, FromZero(st.buckets));
  }

  lemma AcceptsFlushedBucket(st: State, ids: seq<string>, tolerance: real, m: int, raws: seq<RawBucket>)
    requires Inv(st, ids) && tolerance >= 0.0 && m in st.buckets
    requires FirstClaim(raws, m) == Some(RawBucket(m, st.buckets[m], true))
    ensures Accepts(raws, m, ids, tolerance) <==> m >= 0
  {
    if m >= 0 { FlushedBucketValid(st, ids, tolerance, m); }
  }

  lemma AcceptedIs(raws: seq<RawBucket>, ids: seq<string>, tolerance: real, expected: Buckets)
    requires forall m :: m in Claims(raws) ==> (Accepts(raws, m, ids, tolerance) <==> m in expected)
    requires expected.Keys <= Claims(raws)
    requires forall m :: m in expected ==>
               FirstClaim(raws, m).Some? && Contents(FirstClaim(raws, m).value) == expected[m]
    ensures Accepted(raws, ids, tolerance) == expected
  {
    assert Accepted(raws, ids, tolerance).Keys == expected.Keys;
  }

  lemma FlushedClaims(st: State, ids: seq<string>)
    ensures |FileOf(st, ids).buckets| == |st.buckets|
    ensures Claims(FileOf(st, ids).buckets) == st.buckets.Keys
    ensures forall m :: m in st.buckets ==>
              FirstClaim(FileOf(st, ids).buckets, m) == Some(RawBucket(m, st.buckets[m], true))
  {
    var raws := FileOf(st, ids).buckets;
    SortedElements(st.buckets.Keys);
    FirstClaimInRaw(Sorted(st.buckets.Keys), st.buckets, 0);
    assert |st.buckets.Keys| == |st.buckets|;
    forall m
      ensures m in Claims(raws) <==> m in st.buckets
      ensures m in st.buckets ==> FirstClaim(raws, m) == Some(RawBucket(m, st.buckets[m], true))
    {
      FirstClaimInRaw(Sorted(st.buckets.Keys), st.buckets, m);
      FirstClaimIs(raws, m);
    }
  }

  lemma FlushedBucketValid(st: State, ids: seq<string>, tolerance: real, m: int)
    requires Inv(st, ids) && tolerance >= 0.0 && m in st.buckets && m >= 0
    ensures ValidContents(RawBucket(m, st.buckets[m], true), ids, tolerance) && ValidStart(m)
  {
    assert ElapsedTo(m, st.highWater) <= MINUTE;
    InvariantPassesValidator(m, st.buckets[m], ids, tolerance);
  }

  /** The flushed high-water mark, rounded up, fits the newest covered minute and no other value would be chosen. */
  lemma HighWaterAccepted(st: State, ids: seq<string>, m: int)
    requires Inv(st, ids) && IsLatestCovered(FromZero(st.buckets), ids, m)
    ensures st.highWater.Some? && m == MinuteEndingAtOrAfter(st.highWater.value)
    ensures ValidPersisted(Some(Ceiling(st.highWater.value)), FromZero(st.buckets), ids, m)
  {
    assert Covered(st.buckets[m], ids);
    CoveredBeforeHighWater(st.buckets, ids, st.highWater, m);
    var h := st.highWater.value;
    var n := MinuteEndingAtOrAfter(h);
    assert n in CoveredStarts(FromZero(st.buckets), ids);
    LongestCoverageIs(st.buckets[m], ids, ElapsedTo(m, st.highWater));
  }

  /** What is left of a state that was flushed and loaded again. */
  function Survived(st: State, ids: seq<string>): State {
    FRESH.(buckets := FromZero(st.buckets),
           highWater := if AnyCovered(st, ids) && st.highWater.Some? then Some(Ceiling(st.highWater.value) as real)
             else None,
           tokenCounter := st.tokenCounter,
           tokenNeedsRebase := st.tokenCounter.Some?)
  }

  /**
    Flush, then load: every bucket that starts at or after zero comes back unchanged, the
    high-water mark comes back rounded up, or is dropped when no covered bucket is left, and nothing is
    repaired or rejected beyond that.
   */
  lemma FlushThenLoad(st: State, ids: seq<string>, tolerance: real)
    requires Inv(st, ids) && tolerance >= 0.0
    ensures Loaded(FileOf(st, ids), ids, tolerance).(dirty := false) == Survived(st, ids)
    ensures Loaded(FileOf(st, ids), ids, tolerance).dirty <==>
              FromZero(st.buckets) != st.buckets || (st.highWater.Some? && !AnyCovered(st, ids))
    ensures Inv(Loaded(FileOf(st, ids), ids, tolerance), ids)
  {
    AcceptsFlushed(st, ids, tolerance);
    FlushedHighWater(st, ids);
    FromZeroSize(st.buckets);
    SurvivedInv(st, ids);
  }

  lemma FlushedHighWater(st: State, ids: seq<string>)
    requires Inv(st, ids)
    ensures LoadedHighWater(FileOf(st, ids).integrationHighWaterMs, FromZero(st.buckets), ids)
            == Survived(st, ids).highWater
    ensures Believed(FileOf(st, ids).integrationHighWaterMs, FromZero(st.buckets), ids) <==>
              AnyCovered(st, ids) || st.highWater.None?
    ensures AnyCovered(st, ids) ==> st.highWater.Some?
  {
    var buckets := FromZero(st.buckets);
    if AnyCovered(st, ids) {
      var w :| w in st.buckets && w >= 0 && Covered(st.buckets[w], ids);
      assert w in CoveredStarts(buckets, ids);
      LatestCoveredExists(buckets, ids);
      forall m | IsLatestCovered(buckets, ids, m)
        ensures st.highWater.Some? && ValidPersisted(Some(Ceiling(st.highWater.value)), buckets, ids, m)
      {
        HighWaterAccepted(st, ids, m);
      }
    } else {
      assert CoveredStarts(buckets, ids) == {};
    }
  }

  lemma FromZeroSize(buckets: Buckets)
    ensures |FromZero(buckets)| == |buckets| <==> FromZero(buckets) == buckets
  {
    assert FromZero(buckets).Keys <= buckets.Keys;
    SubsetSize(FromZero(buckets).Keys, buckets.Keys);
    assert |FromZero(buckets).Keys| == |FromZero(buckets)| && |buckets.Keys| == |buckets|;
  }

  lemma SurvivedInv(st: State, ids: seq<string>)
    requires Inv(st, ids)
    ensures Inv(Survived(st, ids), ids)
  {
    var buckets := FromZero(st.buckets);
    if AnyCovered(st, ids) {
      var w :| w in st.buckets && w >= 0 && Covered(st.buckets[w], ids);
      assert w in CoveredStarts(buckets, ids);
      LatestCoveredExists(buckets, ids);
      var m :| IsLatestCovered(buckets, ids, m);
      SurvivedHighWater(st, ids, m);
    } else {
      assert CoveredStarts(buckets, ids) == {};
      NoneCoveredFits(buckets, ids);
    }
  }

  lemma SurvivedHighWater(st: State, ids: seq<string>, m: int)
    requires Inv(st, ids) && IsLatestCovered(FromZero(st.buckets), ids, m)
    ensures st.highWater.Some?
    ensures var h := Some(Ceiling(st.highWater.value) as real);
            BucketsOk(FromZero(st.buckets), ids, h) && HighWaterBacked(FromZero(st.buckets), ids, h)
  {
    var buckets := FromZero(st.buckets);
    HighWaterAccepted(st, ids, m);
    LongestCoverageIs(buckets[m], ids, LongestCoverage(buckets[m], ids));
    WithinOneMinute(st, ids);
    HighWaterFits(buckets, ids, m, Ceiling(st.highWater.value) as real);
  }

  lemma WithinOneMinute(st: State, ids: seq<string>)
    requires Inv(st, ids)
    ensures forall m :: m in FromZero(st.buckets) ==> CoverageWithin(FromZero(st.buckets)[m], ids, MINUTE)
  {
    forall m | m in FromZero(st.buckets) ensures CoverageWithin(FromZero(st.buckets)[m], ids, MINUTE) {
      assert ElapsedTo(m, st.highWater) <= MINUTE;
    }
  }
}
