/**
  What single steps of the energy tracker do, in the figures of server/energy/FleetEnergyTracker.js: when an interval is
  integrated, which tokens are counted and where, which buckets a pruning keeps, and what a flush finds to write.
 */
module EnergyRules {
  import opened Options
  import opened EnergyArithmetic
  import opened EnergyBuckets
  import opened EnergyState
  import opened EnergyInvariant
  import opened EnergyPersistence
  import opened EnergySteps
  import opened EnergyRuns
  import opened FiniteSets
  import opened RealArithmetic

  // --- Intervals ----------------------------------------------------------------------------------

  /**
    A reading closes an interval exactly when the node was sampled at most ten seconds before and the clock is past the
    high-water mark. The interval ends at the reading and starts at the sample or at the mark, whichever is later, and
    there it has the watts of the straight line between the two.
   */
  lemma IntervalIff(baseline: Sample, t: real, watts: real, highWater: Option<real>)
    ensures var r := Interval(Some(baseline), Sample(t, watts), highWater);
            && (r.Some? <==> 0.0 < t - baseline.atMs <= 10_000.0 && (highWater.Some? ==> highWater.value < t))
            && (r.Some? ==>
                && r.value.current == Sample(t, watts)
                && r.value.previous.atMs == (if highWater.Some? then Max(baseline.atMs, highWater.value)
                                             else baseline.atMs)
                && (r.value.previous.watts - baseline.watts) * (t - baseline.atMs)
                   == (watts - baseline.watts) * (r.value.previous.atMs - baseline.atMs))
    ensures Interval(None, Sample(t, watts), highWater).None?
  {
    if 0.0 < t - baseline.atMs <= 10_000.0 && highWater.Some? && baseline.atMs < highWater.value < t {
      OnLine(Ramp(baseline, Sample(t, watts)), highWater.value);
    } else {
      ZeroProduct(t - baseline.atMs, watts - baseline.watts);
    }
  }

  lemma OnLine(r: Ramp, x: real)
    requires r.Valid()
    ensures (r.At(x) - r.previous.watts) * (r.current.atMs - r.previous.atMs)
            == (r.current.watts - r.previous.watts) * (x - r.previous.atMs)
  {
    var d, rise, run := r.current.atMs - r.previous.atMs, r.current.watts - r.previous.watts, x - r.previous.atMs;
    QuotientBack(run, d);
    assert rise * (run / d) * d == rise * (run / d * d);
  }

  lemma ZeroProduct(a: real, b: real)
    ensures 0.0 * a == 0.0 && b * 0.0 == 0.0
  {
  }

  /** No later snapshot is of the same node. */
  predicate IsLastOf(snapshots: seq<Snapshot>, i: nat, id: string) {
    i < |snapshots| && snapshots[i].id == id && forall j :: i < j < |snapshots| ==> snapshots[j].id != id
  }

  /** The last snapshot of a node in a batch is the one that counts. */
  lemma {:induction false} LastSnapshotCounts(snapshots: seq<Snapshot>, id: string)
    ensures match LastSnapshot(snapshots, id)
            case None => forall i :: 0 <= i < |snapshots| ==> snapshots[i].id != id
            case Some(s) => exists i :: 0 <= i < |snapshots| && IsLastOf(snapshots, i, id) && snapshots[i] == s
  {
    if snapshots != [] {
      var rest, last := snapshots[..|snapshots| - 1], snapshots[|snapshots| - 1];
      if last.id == id {
        assert IsLastOf(snapshots, |rest|, id);
      } else {
        LastSnapshotCounts(rest, id);
        hide LastSnapshot;
        if i :| 0 <= i < |rest| && IsLastOf(rest, i, id) { StillLast(rest, last, i, id); }
        assert snapshots == rest + [last];
      }
    }
  }

  lemma StillLast(rest: seq<Snapshot>, last: Snapshot, i: nat, id: string)
    requires IsLastOf(rest, i, id) && last.id != id
    ensures IsLastOf(rest + [last], i, id) && (rest + [last])[i] == rest[i]
  {
  }

  /** Node ids keep the order in which they are first named. */
  lemma {:induction false} IdsInOrder(a: seq<string>, b: seq<string>)
    ensures NormalizeNodeIds(a) <= NormalizeNodeIds(a + b)
  {
    if b == [] {
      assert a + b == a;
    } else {
      assert (a + b)[..|a + b| - 1] == a + b[..|b| - 1];
      IdsInOrder(a, b[..|b| - 1]);
    }
  }

  // --- Tokens ---------------------------------------------------------------------------------------

  /**
    The reading continues the counter that was read last: same head and port, not smaller, at most ten seconds later.
   */
  predicate Continues(st: State, reading: TokenReading, t: real) {
    && st.tokenCounter.Some? && !st.tokenNeedsRebase
    && (st.latestRecordAt.Some? ==> st.latestRecordAt.value <= t)
    && var last := st.tokenCounter.value;
       && last.source.headId == reading.headId && last.source.port == reading.port
       && last.source.totalOutputTokens <= reading.totalOutputTokens
       && 0.0 <= t - last.observedAtMs <= 10_000.0
  }

  function Grown(total: int, growth: int): int {
    if total + growth <= 9_007_199_254_740_991 then total + growth else total
  }

  /**
    A record counts tokens only in the minute of its own timestamp, and exactly what the counter grew since the reading
    that it continues; they count as covered when the fleet closes an interval at the same time. Only without a reading
    does a counter that must be rebased stay so.
   */
  lemma TokensCounted(st: State, ids: seq<string>, readings: map<string, real>, tokens: Option<TokenReading>, t: real,
                      m: int)
    requires m % 60_000 == 0
    ensures var after := Counted(st, ids, readings, tokens, t);
            var grows := tokens.Some? && Continues(st, tokens.value, t) && m as real <= t < (m + 60_000) as real;
            var growth := if grows then tokens.value.totalOutputTokens - st.tokenCounter.value.source.totalOutputTokens
                          else 0;
            var covered := FleetInterval(AfterRollback(st, t), ids, readings, t).Some?;
            && BucketAt(after.buckets, m, ids).outputTokens
               == (if growth > 0 then Grown(BucketAt(st.buckets, m, ids).outputTokens, growth)
                   else BucketAt(st.buckets, m, ids).outputTokens)
            && BucketAt(after.buckets, m, ids).coveredOutputTokens
               == (if growth > 0 && covered then Grown(BucketAt(st.buckets, m, ids).coveredOutputTokens, growth)
                   else BucketAt(st.buckets, m, ids).coveredOutputTokens)
            && after.tokenCounter == (if tokens.Some? then Some(TokenObservation(tokens.value, t)) else st.tokenCounter)
            && (after.tokenNeedsRebase <==>
                tokens.None? && (st.tokenNeedsRebase
                                 || (st.latestRecordAt.Some? && t < st.latestRecordAt.value)))
  {
    hide CreditFleet, FleetInterval, Integrates, Total, MinuteOf;
    var start := AfterRollback(st, t);
    CreditsLeaveTokens(start, ids, readings, t, m);
    if tokens.Some? { RebaseIff(st, tokens.value, t); }
    SameMinuteIff(m, t);
  }

  lemma RebaseIff(st: State, reading: TokenReading, t: real)
    ensures MustRebase(AfterRollback(st, t), reading, t) <==> !Continues(st, reading, t)
  {
  }

  lemma SameMinuteIff(m: int, t: real)
    requires m % MINUTE_MS == 0
    ensures MinuteOf(t) == m <==> m as real <= t < (m + 60_000) as real
  {
    if m as real <= t < (m + 60_000) as real { SameMinute(m, MinuteOf(t), t); }
  }

  lemma CreditedLeavesTokens(buckets: Buckets, ids: seq<string>, meter: Meter, r: Ramp, from: real, to: real, m: int)
    requires r.Valid()
    ensures var b, b' := BucketAt(buckets, m, ids), BucketAt(Credited(buckets, ids, meter, r, from, to), m, ids);
            b'.outputTokens == b.outputTokens && b'.coveredOutputTokens == b.coveredOutputTokens
  {
    hide Minutes;
  }

  lemma {:induction false} NodesLeaveTokens(st: State, ids: seq<string>, readings: map<string, real>, t: real, k: nat,
                                            m: int)
    requires k <= |ids|
    ensures var b, b' := BucketAt(st.buckets, m, ids), BucketAt(CreditNodes(st, ids, readings, t, k), m, ids);
            b'.outputTokens == b.outputTokens && b'.coveredOutputTokens == b.coveredOutputTokens
  {
    hide Credited, NodeInterval, BucketAt;
    if k > 0 {
      NodesLeaveTokens(st, ids, readings, t, k - 1, m);
      var r := NodeInterval(st, readings, t, ids[k - 1]);
      if r.Some? {
        CreditedLeavesTokens(CreditNodes(st, ids, readings, t, k - 1), ids, Node(ids[k - 1]), r.value,
                             r.value.previous.atMs, t, m);
      }
    }
  }

  lemma CreditsLeaveTokens(st: State, ids: seq<string>, readings: map<string, real>, t: real, m: int)
    ensures var b, b' := BucketAt(st.buckets, m, ids), BucketAt(CreditFleet(st, ids, readings, t), m, ids);
            b'.outputTokens == b.outputTokens && b'.coveredOutputTokens == b.coveredOutputTokens
  {
    hide Credited, FleetInterval, BucketAt, CreditNodes;
    NodesLeaveTokens(st, ids, readings, t, |ids|, m);
    var r := FleetInterval(st, ids, readings, t);
    if r.Some? {
      CreditedLeavesTokens(CreditNodes(st, ids, readings, t, |ids|), ids, Fleet, r.value, r.value.previous.atMs, t, m);
    }
  }

  /**
    Whatever the file says, the first reading after a load only takes the base: growth over a restart is not counted.
   */
  lemma NothingCountedAcrossRestart(file: File, ids: seq<string>, tolerance: real, reading: TokenReading, t: real)
    ensures !Continues(Loaded(file, ids, tolerance), reading, t)
  {
    hide Accepted, LoadedHighWater;
  }

  // --- Pruning and saving ---------------------------------------------------------------------------

  /**
    A pruning keeps a bucket exactly when it starts at or after the minute that holds the instant 31 days ago and fewer
    than 44,641 newer ones are there. It changes no bucket that it keeps, and marks the state for saving when it drops
    any.
   */
  lemma PruneKeepsIff(st: State, now: real, m: int)
    requires m % 60_000 == 0
    ensures var after := Pruned(st, now);
            && (m in after.buckets <==>
                m in st.buckets && (m + 60_000) as real > now - 2_678_400_000.0 && |Newer(st.buckets.Keys, m)| < 44_641)
            && (m in after.buckets ==> after.buckets[m] == st.buckets[m])
    ensures Pruned(st, now).dirty <==> st.dirty || Pruned(st, now).buckets.Keys != st.buckets.Keys
  {
    var cutoff := AlignedWindowCutoff(now, RETENTION_MS);
    assert cutoff as real <= now - 2_678_400_000.0 < (cutoff + 60_000) as real;
    if m in st.buckets { CutoffIff(m, cutoff, now - 2_678_400_000.0); }
    assert Pruned(st, now).buckets.Keys == Survivors(st.buckets.Keys, cutoff);
  }

  lemma CutoffIff(m: int, cutoff: int, x: real)
    requires m % 60_000 == 0 && cutoff % 60_000 == 0 && cutoff as real <= x < (cutoff + 60_000) as real
    ensures m >= cutoff <==> (m + 60_000) as real > x
  {
    if m < cutoff { WholeMinutesApart(m, cutoff); }
  }

  lemma WholeMinutesApart(m: int, n: int)
    requires m % 60_000 == 0 && n % 60_000 == 0 && m < n
    ensures m + 60_000 <= n
  {
    var a, b := m / 60_000, n / 60_000;
    assert m == 60_000 * a && n == 60_000 * b;
  }

  /** After an accepted record the next flush writes, and what it writes is the pruned memory. */
  lemma FlushSavesRecord(s: System, ids: seq<string>, tolerance: real, e: Event, now: real)
    requires e.Record? && s.memory.latestRecordAt != Some(e.at)
    ensures var recorded := Step(s, ids, tolerance, e);
            var flushed := Step(recorded, ids, tolerance, Flush(now));
            && recorded.memory.dirty
            && flushed.saved == Some(Pruned(recorded.memory, now).(dirty := false))
            && flushed.memory == flushed.saved.value
  {
    hide CreditFleet, FleetInterval, Integrates, Readings, Survivors;
  }

  // --- Loading --------------------------------------------------------------------------------------

  /** A file of another version, or of another fleet, is ignored. */
  lemma OtherFilesAreIgnored(file: File, ids: seq<string>, tolerance: real)
    requires file.version != 1
             || (file.nodeIds.Some?
                 && (|file.nodeIds.value| != |ids| || exists id :: id in file.nodeIds.value && id !in ids))
    ensures Loaded(file, ids, tolerance) == FRESH
  {
  }

  /** A usable token counter of the file is kept, as a base that the next reading replaces. */
  lemma LoadsCounter(file: File, ids: seq<string>, tolerance: real)
    requires IsLoadable(file, ids)
    ensures var loaded := Loaded(file, ids, tolerance);
            && loaded.tokenCounter
               == (if file.tokenCounter.Some? && file.tokenCounter.value.source.headId in ids
                      && 0 <= file.tokenCounter.value.source.port <= 9_007_199_254_740_991
                      && 0 <= file.tokenCounter.value.source.totalOutputTokens <= 9_007_199_254_740_991
                   then file.tokenCounter else None)
            && loaded.tokenNeedsRebase == loaded.tokenCounter.Some?
            && loaded.baselines == map[] && loaded.fleetBaseline.None? && loaded.latestRecordAt.None?
  {
    hide Accepted, LoadedHighWater;
  }

  /** Whatever the tolerance, an accepted bucket has at most 4 Wh and one minute per node, and no more for the fleet. */
  lemma AcceptedWithinMinute(raw: RawBucket, ids: seq<string>, tolerance: real)
    requires ValidContents(raw, ids, tolerance)
    ensures forall id :: id in ids ==>
              0.0 <= Entry(raw.contents.nodeWh, id) <= 4.0 && 0.0 <= Entry(raw.contents.nodeCoverageMs, id) <= 60_000.0
    ensures 0.0 <= raw.contents.fleetWattMs <= 14_400_000.0 * |ids| as real
    ensures 0.0 <= raw.contents.fleetCoverageMs <= 60_000.0
    ensures 0 <= raw.contents.outputTokens <= 9_007_199_254_740_991
    ensures raw.hasCoveredTokens ==> 0 <= raw.contents.coveredOutputTokens <= 9_007_199_254_740_991
  {
    hide Exceeds, FallsBelow, Total;
  }

  /** A restart brings back at most what was saved, and none of the samples that were not. */
  lemma RestartForgetsUnsaved(s: System, ids: seq<string>, tolerance: real, now: real, m: int)
    requires (s.saved.Some? ==> Inv(s.saved.value, ids)) && tolerance >= 0.0
    ensures var memory := Step(s, ids, tolerance, Restart(now)).memory;
            && (m in memory.buckets ==>
                s.saved.Some? && m in s.saved.value.buckets && memory.buckets[m] == s.saved.value.buckets[m])
            && memory.baselines == map[] && memory.fleetBaseline.None? && memory.latestRecordAt.None?
  {
    hide Loaded, FileOf, Survivors, Inv, AnyCovered;
    if s.saved.Some? { FlushThenLoad(s.saved.value, ids, tolerance); }
  }

  /** The load's tolerance is relative to a bound of at least one, and absolute below that. */
  lemma ToleranceIsRelative(value: real, bound: real, tolerance: real)
    ensures bound >= 1.0 ==>
              (!Exceeds(value, bound, tolerance) <==> value <= bound * (1.0 + tolerance))
                && (!FallsBelow(value, bound, tolerance) <==> value >= bound * (1.0 - tolerance))
    ensures 0.0 <= bound <= 1.0 ==>
              (!Exceeds(value, bound, tolerance) <==> value <= bound + tolerance)
                && (!FallsBelow(value, bound, tolerance) <==> value >= bound - tolerance)
  {
  }

  /** The first bucket of a minute in the file is the one that counts, whether it is accepted or not. */
  predicate FirstOf(raws: seq<RawBucket>, i: nat) {
    i < |raws| && forall j :: 0 <= j < i ==> raws[j].minuteStartMs != raws[i].minuteStartMs
  }

  lemma {:induction false} FirstClaimCounts(raws: seq<RawBucket>, i: nat)
    requires FirstOf(raws, i)
    ensures FirstClaim(raws, raws[i].minuteStartMs) == Some(raws[i])
  {
    if i > 0 {
      assert raws[0].minuteStartMs != raws[i].minuteStartMs;
      var rest := raws[1..];
      forall j | 0 <= j < i - 1 ensures rest[j].minuteStartMs != rest[i - 1].minuteStartMs {
        assert rest[j] == raws[j + 1];
      }
      FirstClaimCounts(rest, i - 1);
    }
  }

  /** Of a loadable file exactly the valid first buckets are loaded, without covered tokens if the file has none. */
  lemma LoadsFirstValid(file: File, ids: seq<string>, tolerance: real, i: nat)
    requires IsLoadable(file, ids) && FirstOf(file.buckets, i)
    ensures var loaded, raw := Loaded(file, ids, tolerance).buckets, file.buckets[i];
            var m := raw.minuteStartMs;
            && (m in loaded <==>
                0 <= m <= 9_007_199_254_740_991 && m % 60_000 == 0 && ValidContents(raw, ids, tolerance))
            && (m in loaded ==>
                loaded[m] == if raw.hasCoveredTokens then raw.contents else raw.contents.(coveredOutputTokens := 0))
  {
    hide ValidContents, LoadedHighWater, FirstClaim;
    FirstClaimCounts(file.buckets, i);
    assert file.buckets[i] in file.buckets;
  }

  /**
    The high-water mark of the file is believed exactly when it lies in the newest covered minute, behind all that was
    covered of it, or at the minute's end; otherwise the mark is that end. Without a covered minute there is none.
   */
  lemma MarkIsRepaired(persisted: Option<int>, buckets: Buckets, ids: seq<string>, m: int)
    ensures (forall n :: n in buckets ==> !Covered(buckets[n], ids)) ==> LoadedHighWater(persisted, buckets, ids).None?
    ensures m in buckets && Covered(buckets[m], ids)
            && (forall n :: n in buckets && Covered(buckets[n], ids) ==> n <= m) ==>
              LoadedHighWater(persisted, buckets, ids) ==
                if persisted.Some? && 0 <= persisted.value <= 9_007_199_254_740_991
                   && CoverageWithin(buckets[m], ids, (persisted.value - m) as real) && persisted.value <= m + 60_000
                then Some(persisted.value as real)
                else Some(Min((m + 60_000) as real, 9_007_199_254_740_991.0))
  {
    hide Covered, LongestCoverage, CoverageWithin;
    if m in buckets && Covered(buckets[m], ids) && forall n :: n in buckets && Covered(buckets[n], ids) ==> n <= m {
      assert m in CoveredStarts(buckets, ids) && IsLatestCovered(buckets, ids, m);
      if persisted.Some? { LongestCoverageIs(buckets[m], ids, (persisted.value - m) as real); }
    }
  }

  lemma {:induction false} RawOfIs(starts: seq<int>, buckets: Buckets, i: nat)
    requires (forall j :: 0 <= j < |starts| ==> starts[j] in buckets) && i < |starts|
    ensures |RawOf(starts, buckets)| == |starts|
    ensures RawOf(starts, buckets)[i] == RawBucket(starts[i], buckets[starts[i]], true)
  {
    if |starts| > 1 { RawOfIs(starts[1..], buckets, if i > 0 then i - 1 else 0); }
    if i > 0 { assert starts[1..][i - 1] == starts[i]; }
  }

  /** A flushed file lists every bucket of the state once, in the order of time, and names the fleet. */
  lemma FileIsSorted(st: State, ids: seq<string>)
    ensures var file := FileOf(st, ids);
            && file.version == 1 && file.nodeIds == Some(ids) && file.tokenCounter == st.tokenCounter
            && |file.buckets| == |st.buckets|
            && (forall i :: 0 <= i < |file.buckets| ==>
                  var raw := file.buckets[i];
                  raw.minuteStartMs in st.buckets
                    && raw == RawBucket(raw.minuteStartMs, st.buckets[raw.minuteStartMs], true))
            && forall i, j :: 0 <= i < j < |file.buckets| ==>
                 file.buckets[i].minuteStartMs < file.buckets[j].minuteStartMs
  {
    hide Sorted, RawOf;
    SortedElements(st.buckets.Keys);
    var starts := Sorted(st.buckets.Keys);
    assert |st.buckets.Keys| == |st.buckets|;
    forall i | 0 <= i < |starts| ensures starts[i] in st.buckets {
      assert starts[i] in starts;
    }
    if starts == [] { NoRaws(st.buckets); } else { RawOfIs(starts, st.buckets, 0); }
    forall i | 0 <= i < |starts|
      ensures |RawOf(starts, st.buckets)| == |starts|
      ensures RawOf(starts, st.buckets)[i] == RawBucket(starts[i], st.buckets[starts[i]], true)
    {
      RawOfIs(starts, st.buckets, i);
    }
  }

  lemma NoRaws(buckets: Buckets)
    ensures RawOf([], buckets) == []
  {
  }
}
