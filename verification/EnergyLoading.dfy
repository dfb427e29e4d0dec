/**
  Step lemmas for the loops of `_load` and `flush` (server/energy/FleetEnergyTracker.js:625-813): the stable
  sort of the candidates and why it leaves the first claim to every minute in front, the acceptance of one
  more candidate, the newest covered bucket in order, and the list of buckets that is written.
 */
module EnergyLoading {
  import opened Options
  import opened EnergyArithmetic
  import opened EnergyBuckets
  import opened EnergyState
  import opened EnergyPersistence
  import opened EnergySteps
  import opened FiniteSets
  import opened RealArithmetic

  // --- Stable sort ----------------------------------------------------------------------------

  predicate ByStart(raws: seq<RawBucket>) {
    forall i, j :: 0 <= i < j < |raws| ==> raws[i].minuteStartMs <= raws[j].minuteStartMs
  }

  /** The two lists answer alike when asked for the first bucket that claims a minute. */
  ghost predicate SameClaims(a: seq<RawBucket>, b: seq<RawBucket>) {
    && |a| == |b|
    && forall m :: FirstClaim(a, m) == FirstClaim(b, m)
  }

  lemma {:induction false} ClaimInConcat(a: seq<RawBucket>, b: seq<RawBucket>, m: int)
    ensures FirstClaim(a + b, m) == if FirstClaim(a, m).Some? then FirstClaim(a, m) else FirstClaim(b, m)
  {
    if a == [] {
      assert a + b == b;
    } else {
      assert (a + b)[1..] == a[1..] + b;
      ClaimInConcat(a[1..], b, m);
    }
  }

  lemma ClaimInSingle(raw: RawBucket, m: int)
    ensures FirstClaim([raw], m) == if raw.minuteStartMs == m then Some(raw) else None
  {
    assert FirstClaim([raw][1..], m) == None;
  }

  lemma {:induction false} NoClaim(raws: seq<RawBucket>, m: int)
    requires forall raw :: raw in raws ==> raw.minuteStartMs != m
    ensures FirstClaim(raws, m) == None
  {
    FirstClaimIs(raws, m);
  }

  /** Inserting behind everything that is not larger keeps the order and who comes first. */
  lemma InsertedStable(raws: seq<RawBucket>, x: RawBucket, i: nat)
    requires ByStart(raws) && i <= |raws|
    requires i > 0 ==> raws[i - 1].minuteStartMs <= x.minuteStartMs
    requires forall j :: i <= j < |raws| ==> x.minuteStartMs < raws[j].minuteStartMs
    ensures ByStart(raws[..i] + [x] + raws[i..])
    ensures SameClaims(raws[..i] + [x] + raws[i..], raws + [x])
  {
    forall j | 0 <= j < i ensures raws[j].minuteStartMs <= x.minuteStartMs {
      assert raws[j].minuteStartMs <= raws[i - 1].minuteStartMs;
    }
    forall m ensures FirstClaim(raws[..i] + [x] + raws[i..], m) == FirstClaim(raws + [x], m) {
      InsertedClaim(raws, x, i, m);
    }
  }

  lemma InsertedClaim(raws: seq<RawBucket>, x: RawBucket, i: nat, m: int)
    requires i <= |raws|
    requires forall j :: i <= j < |raws| ==> x.minuteStartMs < raws[j].minuteStartMs
    ensures FirstClaim(raws[..i] + [x] + raws[i..], m) == FirstClaim(raws + [x], m)
  {
    var a, b := raws[..i], raws[i..];
    assert raws == a + b;
    ClaimInConcat(a + [x], b, m);
    ClaimInConcat(a, [x], m);
    ClaimInConcat(a + b, [x], m);
    ClaimInConcat(a, b, m);
    if x.minuteStartMs == m {
      forall raw | raw in b ensures raw.minuteStartMs != m {
        var j :| 0 <= j < |b| && b[j] == raw;
        assert raw == raws[i + j];
      }
      NoClaim(b, m);
    }
    ClaimInSingle(x, m);
  }

  method InsertCandidate(raws: seq<RawBucket>, x: RawBucket) returns (sorted: seq<RawBucket>)
    requires ByStart(raws)
    ensures ByStart(sorted) && SameClaims(sorted, raws + [x])
  {
    var i := |raws|;
    while i > 0 && raws[i - 1].minuteStartMs > x.minuteStartMs
      invariant 0 <= i <= |raws|
      invariant forall j :: i <= j < |raws| ==> x.minuteStartMs < raws[j].minuteStartMs
    {
      i := i - 1;
    }
    sorted := raws[..i] + [x] + raws[i..];
    InsertedStable(raws, x, i);
  }

  /** The candidates by increasing start; candidates of the same minute stay in the order of the file. */
  method SortCandidates(raws: seq<RawBucket>) returns (sorted: seq<RawBucket>)
    ensures ByStart(sorted) && SameClaims(sorted, raws)
  {
    hide SameClaims, ByStart;
    sorted := [];
    NothingSorted();
    for i := 0 to |raws|
      invariant ByStart(sorted) && SameClaims(sorted, raws[..i])
    {
      var next := InsertCandidate(sorted, raws[i]);
      assert raws[..i + 1] == raws[..i] + [raws[i]];
      SameClaimsExtend(sorted, raws[..i], raws[i]);
      SameClaimsChain(next, sorted + [raws[i]], raws[..i + 1]);
      sorted := next;
    }
    assert raws[..|raws|] == raws;
  }

  lemma NothingSorted()
    ensures ByStart([]) && SameClaims([], [])
  {
  }

  lemma SameClaimsChain(a: seq<RawBucket>, b: seq<RawBucket>, c: seq<RawBucket>)
    requires SameClaims(a, b) && SameClaims(b, c)
    ensures SameClaims(a, c)
  {
  }

  lemma SameClaimsExtend(a: seq<RawBucket>, b: seq<RawBucket>, x: RawBucket)
    requires SameClaims(a, b)
    ensures SameClaims(a + [x], b + [x])
  {
    forall m ensures FirstClaim(a + [x], m) == FirstClaim(b + [x], m) {
      ClaimInConcat(a, [x], m);
      ClaimInConcat(b, [x], m);
    }
  }

  // --- Accepting one more candidate -----------------------------------------------------------

  predicate Wanted(raw: RawBucket, seen: set<int>, ids: seq<string>, tolerance: real) {
    ValidStart(raw.minuteStartMs) && raw.minuteStartMs !in seen && ValidContents(raw, ids, tolerance)
  }

  function ValidClaims(raws: seq<RawBucket>): set<int> {
    set m | m in Claims(raws) && ValidStart(m)
  }

  lemma ClaimsExtend(raws: seq<RawBucket>, x: RawBucket)
    ensures Claims(raws + [x]) == Claims(raws) + {x.minuteStartMs}
    ensures ValidClaims(raws + [x])
            == if ValidStart(x.minuteStartMs) then ValidClaims(raws) + {x.minuteStartMs} else ValidClaims(raws)
  {
    forall m ensures m in Claims(raws + [x]) <==> m in Claims(raws) + {x.minuteStartMs} {
      if m in Claims(raws) {
        var raw :| raw in raws && raw.minuteStartMs == m;
        assert raw in raws + [x];
      }
      if m == x.minuteStartMs { assert x in raws + [x]; }
    }
  }

  lemma AcceptedExtend(raws: seq<RawBucket>, x: RawBucket, ids: seq<string>, tolerance: real)
    ensures var m := x.minuteStartMs;
            && Accepted(raws + [x], ids, tolerance)
            == (if Wanted(x, ValidClaims(raws), ids, tolerance)
                then Accepted(raws, ids, tolerance)[m := Contents(x)] else Accepted(raws, ids, tolerance))
            && (Wanted(x, ValidClaims(raws), ids, tolerance) ==> m !in Accepted(raws, ids, tolerance))
  {
    hide Accepts, Wanted, Contents, ValidClaims, Claims, FirstClaim;
    var before, after := Accepted(raws, ids, tolerance), Accepted(raws + [x], ids, tolerance);
    var wanted := Wanted(x, ValidClaims(raws), ids, tolerance);
    var expected := if wanted then before[x.minuteStartMs := Contents(x)] else before;
    forall m
      ensures m in after <==> m in expected
      ensures m in after ==> after[m] == expected[m]
    {
      AcceptedExtendAt(raws, x, ids, tolerance, m);
    }
    AcceptedExtendAt(raws, x, ids, tolerance, x.minuteStartMs);
    assert after == expected;
  }

  lemma AcceptedExtendAt(raws: seq<RawBucket>, x: RawBucket, ids: seq<string>, tolerance: real, m: int)
    ensures m in Claims(raws + [x]) && Accepts(raws + [x], m, ids, tolerance) <==>
              (m in Claims(raws) && Accepts(raws, m, ids, tolerance))
                || (m == x.minuteStartMs && Wanted(x, ValidClaims(raws), ids, tolerance))
    ensures m in Claims(raws) ==> FirstClaim(raws + [x], m) == FirstClaim(raws, m) && FirstClaim(raws, m).Some?
    ensures m == x.minuteStartMs && m !in Claims(raws) ==> FirstClaim(raws + [x], m) == Some(x)
    ensures m == x.minuteStartMs && Wanted(x, ValidClaims(raws), ids, tolerance) ==> m !in Claims(raws)
  {
    hide ValidContents, ValidStart;
    ClaimsExtend(raws, x);
    FirstClaimIs(raws, m);
    ClaimInConcat(raws, [x], m);
    ClaimInSingle(x, m);
  }

  lemma SameAccepted(a: seq<RawBucket>, b: seq<RawBucket>, ids: seq<string>, tolerance: real)
    requires SameClaims(a, b)
    ensures Accepted(a, ids, tolerance) == Accepted(b, ids, tolerance)
  {
    hide ValidContents, ValidStart, Contents;
    forall m ensures m in Claims(a) <==> m in Claims(b) {
      FirstClaimIs(a, m);
      FirstClaimIs(b, m);
    }
  }

  /** What has been loaded after the first candidates, in order of their starts. */
  ghost predicate LoadedSoFar(raws: seq<RawBucket>, ids: seq<string>, tolerance: real,
                              buckets: Buckets, order: seq<int>, seen: set<int>, rejected: bool)
  {
    && buckets == Accepted(raws, ids, tolerance)
    && seen == ValidClaims(raws)
    && Increasing(order) && Elements(order) == buckets.Keys
    && (forall m :: m in buckets ==> m in Claims(raws))
    && |buckets| <= |raws|
    && (rejected <==> |buckets| != |raws|)
    && WellFormed(buckets, ids)
  }

  lemma LoadStart(ids: seq<string>, tolerance: real)
    ensures LoadedSoFar([], ids, tolerance, map[], [], {}, false)
  {
  }

  lemma LoadEnd(raws: seq<RawBucket>, sorted: seq<RawBucket>, ids: seq<string>, tolerance: real,
                buckets: Buckets, order: seq<int>, seen: set<int>, rejected: bool)
    requires SameClaims(sorted, raws) && LoadedSoFar(sorted, ids, tolerance, buckets, order, seen, rejected)
    ensures buckets == Accepted(raws, ids, tolerance) && (rejected <==> |buckets| != |raws|)
    ensures Increasing(order) && Elements(order) == buckets.Keys && WellFormed(buckets, ids)
  {
    hide Accepted;
    SameAccepted(sorted, raws, ids, tolerance);
  }

  lemma LoadStep(raws: seq<RawBucket>, x: RawBucket, ids: seq<string>, tolerance: real,
                 buckets: Buckets, order: seq<int>, seen: set<int>, rejected: bool)
    requires LoadedSoFar(raws, ids, tolerance, buckets, order, seen, rejected)
    requires forall raw :: raw in raws ==> raw.minuteStartMs <= x.minuteStartMs
    ensures var m, wanted := x.minuteStartMs, Wanted(x, seen, ids, tolerance);
            LoadedSoFar(raws + [x], ids, tolerance,
                        if wanted then buckets[m := Contents(x)] else buckets,
                        if wanted then order + [m] else order,
                        if ValidStart(m) then seen + {m} else seen,
                        rejected || !wanted)
  {
    hide Accepted, ValidContents, Contents, ValidStart, Wanted, ValidClaims, Claims, WellFormed, Increasing, Elements;
    AcceptedExtend(raws, x, ids, tolerance);
    ClaimsExtend(raws, x);
    if Wanted(x, seen, ids, tolerance) {
      OrderExtends(raws, x, order, buckets);
      assert buckets[x.minuteStartMs := Contents(x)].Keys == buckets.Keys + {x.minuteStartMs};
      WantedWellFormed(x, seen, ids, tolerance, buckets);
    }
  }

  lemma WantedWellFormed(x: RawBucket, seen: set<int>, ids: seq<string>, tolerance: real, buckets: Buckets)
    requires Wanted(x, seen, ids, tolerance) && WellFormed(buckets, ids)
    ensures WellFormed(buckets[x.minuteStartMs := Contents(x)], ids)
  {
  }

  lemma OrderExtends(raws: seq<RawBucket>, x: RawBucket, order: seq<int>, buckets: Buckets)
    requires Increasing(order) && Elements(order) == buckets.Keys
    requires forall m :: m in buckets ==> m in Claims(raws)
    requires forall raw :: raw in raws ==> raw.minuteStartMs <= x.minuteStartMs
    requires x.minuteStartMs !in buckets
    ensures Increasing(order + [x.minuteStartMs])
    ensures Elements(order + [x.minuteStartMs]) == buckets.Keys + {x.minuteStartMs}
  {
    forall i | 0 <= i < |order| ensures order[i] < x.minuteStartMs {
      assert order[i] in Elements(order);
      assert order[i] in Claims(raws);
      var raw :| raw in raws && raw.minuteStartMs == order[i];
    }
    assert Elements(order + [x.minuteStartMs]) == Elements(order) + {x.minuteStartMs};
  }

  lemma AlreadySeen(seen: set<int>, m: int)
    ensures m in seen ==> seen + {m} == seen
  {
  }

  lemma SortedBefore(raws: seq<RawBucket>, i: nat)
    requires ByStart(raws) && i < |raws|
    ensures forall raw :: raw in raws[..i] ==> raw.minuteStartMs <= raws[i].minuteStartMs
  {
    forall raw | raw in raws[..i] ensures raw.minuteStartMs <= raws[i].minuteStartMs {
      var j :| 0 <= j < |raws[..i]| && raws[..i][j] == raw;
      assert raws[j] == raw;
    }
  }

  // --- The newest covered bucket --------------------------------------------------------------

  /** `latest` is the last covered minute among the first `k` of the order. */
  predicate LatestCoveredOf(buckets: Buckets, ids: seq<string>, order: seq<int>, k: nat, latest: Option<int>)
    requires k <= |order|
  {
    && (latest.Some? ==> latest.value in CoveredStarts(buckets, ids))
    && (forall j :: 0 <= j < k && order[j] in CoveredStarts(buckets, ids) ==> latest.Some? && order[j] <= latest.value)
  }

  lemma LatestCoveredEnd(buckets: Buckets, ids: seq<string>, order: seq<int>, latest: Option<int>)
    requires Elements(order) == buckets.Keys
    requires LatestCoveredOf(buckets, ids, order, |order|, latest)
    ensures latest.None? ==> CoveredStarts(buckets, ids) == {}
    ensures latest.Some? ==> IsLatestCovered(buckets, ids, latest.value)
  {
    forall m | m in CoveredStarts(buckets, ids) ensures latest.Some? && m <= latest.value {
      assert m in Elements(order);
      var j :| 0 <= j < |order| && order[j] == m;
    }
  }

  lemma HighWaterChosen(persisted: Option<int>, buckets: Buckets, ids: seq<string>, latest: Option<int>)
    requires latest.None? ==> CoveredStarts(buckets, ids) == {}
    requires latest.Some? ==> IsLatestCovered(buckets, ids, latest.value)
    ensures LoadedHighWater(persisted, buckets, ids)
         == if latest.None? then None
            else if ValidPersisted(persisted, buckets, ids, latest.value) then Some(persisted.value as real)
            else Some(Min((latest.value + MINUTE_MS) as real, MAX_SAFE_INTEGER as real))
    ensures Believed(persisted, buckets, ids) <==>
              if latest.None? then persisted.None? else ValidPersisted(persisted, buckets, ids, latest.value)
  {
    hide ValidPersisted;
    if latest.Some? {
      assert latest.value in CoveredStarts(buckets, ids);
      forall m | IsLatestCovered(buckets, ids, m) ensures m == latest.value {
      }
    }
  }

  // --- Writing --------------------------------------------------------------------------------

  lemma {:induction false} RawOfExtend(starts: seq<int>, m: int, buckets: Buckets)
    requires m in buckets && forall i :: 0 <= i < |starts| ==> starts[i] in buckets
    ensures RawOf(starts + [m], buckets) == RawOf(starts, buckets) + [RawBucket(m, buckets[m], true)]
  {
    if starts == [] {
      assert RawOf([m][1..], buckets) == [];
    } else {
      assert (starts + [m])[1..] == starts[1..] + [m];
      RawOfExtend(starts[1..], m, buckets);
    }
  }

  lemma IncreasingHasNoRepeats(xs: seq<int>)
    requires Increasing(xs)
    ensures NoRepeats(xs)
  {
  }

  lemma PrunedFresh(now: real)
    ensures Pruned(FRESH, now) == FRESH
  {
    assert Survivors(FRESH.buckets.Keys, AlignedWindowCutoff(now, RETENTION_MS)) == {};
    assert Kept(FRESH.buckets, {}) == map[];
  }
}
