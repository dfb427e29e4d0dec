/** What crediting an interval to minute buckets does, said without the loop of server/energy/FleetEnergyTracker.js. */
module EnergyBuckets {
  import opened EnergyArithmetic

  datatype Bucket = Bucket(
    nodeWh: map<string, real>,
    nodeCoverageMs: map<string, real>,
    fleetWattMs: real,
    fleetCoverageMs: real,
    outputTokens: int,
    coveredOutputTokens: int)

  /** Buckets by the start of their minute. */
  type Buckets = map<int, Bucket>

  /** Which accumulator of a bucket an interval goes to. */
  datatype Meter = Node(id: string) | Fleet

  predicate Shaped(b: Bucket, ids: seq<string>) {
    b.nodeWh.Keys == b.nodeCoverageMs.Keys == (set id | id in ids)
  }

  predicate AllMinutes(ms: set<int>) {
    forall m :: m in ms ==> m % MINUTE_MS == 0
  }

  predicate WellFormed(buckets: Buckets, ids: seq<string>) {
    && AllMinutes(buckets.Keys)
    && forall m :: m in buckets ==> Shaped(buckets[m], ids)
  }

  predicate Tracks(ids: seq<string>, meter: Meter) {
    meter.Node? ==> meter.id in ids
  }

  function EmptyBucket(ids: seq<string>): (b: Bucket)
    ensures Shaped(b, ids)
  {
    var zero := map id | id in ids :: 0.0;
    Bucket(zero, zero, 0.0, 0.0, 0, 0)
  }

  function BucketAt(buckets: Buckets, m: int, ids: seq<string>): Bucket {
    if m in buckets then buckets[m] else EmptyBucket(ids)
  }

  function Add(b: Bucket, meter: Meter, durationMs: real, wattMs: real): Bucket {
    match meter
    case Node(id) =>
      b.(nodeWh := b.nodeWh[id := Entry(b.nodeWh, id) + wattMs / MS_PER_HOUR],
         nodeCoverageMs := b.nodeCoverageMs[id := Entry(b.nodeCoverageMs, id) + durationMs])
    case Fleet =>
      b.(fleetWattMs := b.fleetWattMs + wattMs, fleetCoverageMs := b.fleetCoverageMs + durationMs)
  }

  lemma AddShaped(b: Bucket, ids: seq<string>, meter: Meter, durationMs: real, wattMs: real)
    requires Shaped(b, ids) && Tracks(ids, meter)
    ensures Shaped(Add(b, meter, durationMs, wattMs), ids)
  {
  }

  lemma AddNothing(b: Bucket, ids: seq<string>, meter: Meter)
    requires Shaped(b, ids) && Tracks(ids, meter)
    ensures Add(b, meter, 0.0, 0.0) == b
  {
    if meter.Node? {
      assert b.nodeWh[meter.id := b.nodeWh[meter.id]] == b.nodeWh;
      assert b.nodeCoverageMs[meter.id := b.nodeCoverageMs[meter.id]] == b.nodeCoverageMs;
    }
  }

  lemma AddTwice(b: Bucket, meter: Meter, d: real, e: real, d': real, e': real)
    ensures Add(Add(b, meter, d, e), meter, d', e') == Add(b, meter, d + d', e + e')
  {
    if meter.Node? {
      var b2 := Add(Add(b, meter, d, e), meter, d', e');
      var b3 := Add(b, meter, d + d', e + e');
      assert b2.nodeWh == b3.nodeWh;
      assert b2.nodeCoverageMs == b3.nodeCoverageMs;
    }
  }

  // --- Adding amounts named minute by minute --------------------------------------------------

  /** The buckets after each touched minute got the duration and the watt-milliseconds named for it. */
  function Spread(buckets: Buckets, ids: seq<string>, meter: Meter, touched: set<int>, duration: int -> real,
                  energy: int -> real): Buckets {
    map m | m in buckets.Keys + touched :: Add(BucketAt(buckets, m, ids), meter, duration(m), energy(m))
  }

  lemma SpreadWellFormed(buckets: Buckets, ids: seq<string>, meter: Meter, touched: set<int>, duration: int -> real,
                         energy: int -> real)
    requires WellFormed(buckets, ids) && Tracks(ids, meter) && AllMinutes(touched)
    ensures WellFormed(Spread(buckets, ids, meter, touched, duration, energy), ids)
  {
    var result := Spread(buckets, ids, meter, touched, duration, energy);
    forall m | m in result ensures Shaped(result[m], ids) {
      AddShaped(BucketAt(buckets, m, ids), ids, meter, duration(m), energy(m));
    }
  }

  lemma SpreadAt(buckets: Buckets, ids: seq<string>, meter: Meter, touched: set<int>, duration: int -> real,
                 energy: int -> real, m: int)
    requires WellFormed(buckets, ids) && Tracks(ids, meter)
    requires m !in touched ==> duration(m) == 0.0 && energy(m) == 0.0
    ensures BucketAt(Spread(buckets, ids, meter, touched, duration, energy), m, ids)
         == Add(BucketAt(buckets, m, ids), meter, duration(m), energy(m))
  {
    if m !in buckets.Keys + touched {
      AddNothing(BucketAt(buckets, m, ids), ids, meter);
    }
  }

  lemma SpreadsJoin(buckets: Buckets, ids: seq<string>, meter: Meter,
                    t: set<int>, d: int -> real, e: int -> real,
                    t': set<int>, d': int -> real, e': int -> real,
                    sum: set<int>, dSum: int -> real, eSum: int -> real)
    requires WellFormed(buckets, ids) && Tracks(ids, meter) && sum == t + t' && AllMinutes(t) && AllMinutes(sum)
    requires forall m :: m in buckets.Keys + sum ==> m in t || (d(m) == 0.0 && e(m) == 0.0)
    requires forall m :: m in buckets.Keys + sum ==> m in t' || (d'(m) == 0.0 && e'(m) == 0.0)
    requires forall m :: m in buckets.Keys + sum ==> dSum(m) == d(m) + d'(m) && eSum(m) == e(m) + e'(m)
    ensures Spread(Spread(buckets, ids, meter, t, d, e), ids, meter, t', d', e')
         == Spread(buckets, ids, meter, sum, dSum, eSum)
  {
    var both := Spread(Spread(buckets, ids, meter, t, d, e), ids, meter, t', d', e');
    var once := Spread(buckets, ids, meter, sum, dSum, eSum);
    assert both.Keys == once.Keys;
    forall m | m in once ensures both[m] == once[m] {
      assert m in buckets.Keys + sum;
      SpreadTwiceAt(buckets, ids, meter, t, d, e, t', d', e', m, dSum(m), eSum(m));
    }
  }

  lemma SpreadTwiceAt(buckets: Buckets, ids: seq<string>, meter: Meter,
                      t: set<int>, d: int -> real, e: int -> real,
                      t': set<int>, d': int -> real, e': int -> real, m: int, dSum: real, eSum: real)
    requires WellFormed(buckets, ids) && Tracks(ids, meter) && AllMinutes(t) && m in buckets.Keys + t + t'
    requires m in t || (d(m) == 0.0 && e(m) == 0.0)
    requires m in t' || (d'(m) == 0.0 && e'(m) == 0.0)
    requires dSum == d(m) + d'(m) && eSum == e(m) + e'(m)
    ensures Spread(Spread(buckets, ids, meter, t, d, e), ids, meter, t', d', e')[m]
         == Add(BucketAt(buckets, m, ids), meter, dSum, eSum)
  {
    SpreadWellFormed(buckets, ids, meter, t, d, e);
    var half := Spread(buckets, ids, meter, t, d, e);
    SpreadAt(buckets, ids, meter, t, d, e, m);
    SpreadAt(half, ids, meter, t', d', e', m);
    AddsUp(BucketAt(buckets, m, ids), BucketAt(half, m, ids), meter, d(m), e(m), d'(m), e'(m), dSum, eSum);
  }

  lemma AddsUp(b: Bucket, half: Bucket, meter: Meter, d: real, e: real, d': real, e': real, dSum: real, eSum: real)
    requires half == Add(b, meter, d, e) && dSum == d + d' && eSum == e + e'
    ensures Add(half, meter, d', e') == Add(b, meter, dSum, eSum)
  {
    AddTwice(b, meter, d, e, d', e');
  }

  lemma SpreadInOne(buckets: Buckets, ids: seq<string>, meter: Meter, d: int -> real, e: int -> real, m: int)
    requires WellFormed(buckets, ids) && Tracks(ids, meter)
    requires forall n :: n in buckets && n != m ==> d(n) == 0.0 && e(n) == 0.0
    ensures Spread(buckets, ids, meter, {m}, d, e) == buckets[m := Add(BucketAt(buckets, m, ids), meter, d(m), e(m))]
  {
    var result := Spread(buckets, ids, meter, {m}, d, e);
    var expected := buckets[m := Add(BucketAt(buckets, m, ids), meter, d(m), e(m))];
    assert result.Keys == expected.Keys;
    forall n | n in result ensures result[n] == expected[n] {
      if n != m { AddNothing(buckets[n], ids, meter); }
    }
  }

  lemma SpreadSame(buckets: Buckets, ids: seq<string>, meter: Meter, touched: set<int>, d: int -> real,
                   e: int -> real, e': int -> real)
    requires forall m :: e(m) == e'(m)
    ensures Spread(buckets, ids, meter, touched, d, e) == Spread(buckets, ids, meter, touched, d, e')
  {
  }

  // --- Crediting part of a line ---------------------------------------------------------------

  /** The minutes that the interval [from, to) touches. */
  function Minutes(from: real, to: real): (ms: set<int>)
    ensures AllMinutes(ms)
    ensures forall m :: m in ms <==> from < to && m % MINUTE_MS == 0 && MinuteOf(from) <= m && m as real < to
  {
    set m: int | MinuteOf(from) <= m <= to.Floor && m % MINUTE_MS == 0 && from < to && m as real < to
  }

  /** Time that the part [from, to) of an interval spends in each minute. */
  function Durations(from: real, to: real): int -> real {
    m => Overlap(m, from, to)
  }

  /** Energy under the part [from, to) of the line `r`, minute by minute. */
  function Energies(r: Ramp, from: real, to: real): int -> real
    requires r.Valid()
  {
    m => r.Area(Edge(m, from), Edge(m, to))
  }

  /**
    The buckets after the part [from, to) of the line `r` went to `meter`: every minute it touches
    gets the time and the energy of the overlap, every other bucket stays as it was.
   */
  function Credited(buckets: Buckets, ids: seq<string>, meter: Meter, r: Ramp, from: real, to: real): Buckets
    requires r.Valid()
  {
    Spread(buckets, ids, meter, Minutes(from, to), Durations(from, to), Energies(r, from, to))
  }

  lemma CreditedKeys(buckets: Buckets, ids: seq<string>, meter: Meter, r: Ramp, from: real, to: real)
    requires r.Valid()
    ensures Credited(buckets, ids, meter, r, from, to).Keys == buckets.Keys + Minutes(from, to)
  {
  }

  lemma CreditedWellFormed(buckets: Buckets, ids: seq<string>, meter: Meter, r: Ramp, from: real, to: real)
    requires WellFormed(buckets, ids) && Tracks(ids, meter) && r.Valid()
    ensures WellFormed(Credited(buckets, ids, meter, r, from, to), ids)
  {
    SpreadWellFormed(buckets, ids, meter, Minutes(from, to), Durations(from, to), Energies(r, from, to));
  }

  lemma NoOverlap(m: int, r: Ramp, from: real, to: real)
    requires r.Valid() && m % MINUTE_MS == 0 && from <= to && m !in Minutes(from, to)
    ensures Durations(from, to)(m) == 0.0 && Energies(r, from, to)(m) == 0.0
  {
    if m as real < to && from < to {
      assert m < MinuteOf(from);
      assert m + MINUTE_MS <= MinuteOf(from);
    }
    assert Edge(m, from) == Edge(m, to);
    NoArea(r, Edge(m, from));
  }

  lemma NoArea(r: Ramp, x: real)
    requires r.Valid()
    ensures r.Area(x, x) == 0.0
  {
  }

  /** What `Credited` does to one minute, touched or not. */
  lemma CreditedAt(buckets: Buckets, ids: seq<string>, meter: Meter, r: Ramp, from: real, to: real, m: int)
    requires WellFormed(buckets, ids) && Tracks(ids, meter) && r.Valid()
    requires m % MINUTE_MS == 0 && from <= to
    ensures BucketAt(Credited(buckets, ids, meter, r, from, to), m, ids)
         == Add(BucketAt(buckets, m, ids), meter, Overlap(m, from, to), r.Area(Edge(m, from), Edge(m, to)))
  {
    if m !in Minutes(from, to) {
      NoOverlap(m, r, from, to);
    }
    SpreadAt(buckets, ids, meter, Minutes(from, to), Durations(from, to), Energies(r, from, to), m);
  }

  /** Crediting [x, y) and then [y, z) of one line is crediting [x, z) at once. */
  lemma CreditsJoin(buckets: Buckets, ids: seq<string>, meter: Meter, r: Ramp, x: real, y: real, z: real)
    requires WellFormed(buckets, ids) && Tracks(ids, meter) && r.Valid() && x <= y <= z
    ensures Credited(Credited(buckets, ids, meter, r, x, y), ids, meter, r, y, z)
         == Credited(buckets, ids, meter, r, x, z)
  {
    forall m ensures m in Minutes(x, y) + Minutes(y, z) <==> m in Minutes(x, z) {
      MinutesJoin(x, y, z, m);
    }
    var d, d', dSum := Durations(x, y), Durations(y, z), Durations(x, z);
    var e, e', eSum := Energies(r, x, y), Energies(r, y, z), Energies(r, x, z);
    forall m | m in buckets.Keys + Minutes(x, z)
      ensures m in Minutes(x, y) || (d(m) == 0.0 && e(m) == 0.0)
      ensures m in Minutes(y, z) || (d'(m) == 0.0 && e'(m) == 0.0)
      ensures dSum(m) == d(m) + d'(m) && eSum(m) == e(m) + e'(m)
    {
      if m !in Minutes(x, y) { NoOverlap(m, r, x, y); }
      if m !in Minutes(y, z) { NoOverlap(m, r, y, z); }
      AreaJoins(r, Edge(m, x), Edge(m, y), Edge(m, z));
    }
    SpreadsJoin(buckets, ids, meter, Minutes(x, y), d, e, Minutes(y, z), d', e', Minutes(x, z), dSum, eSum);
  }

  lemma MinutesJoin(x: real, y: real, z: real, m: int)
    requires x <= y <= z
    ensures m in Minutes(x, y) || m in Minutes(y, z) <==> m in Minutes(x, z)
  {
    if x < y < z {
      assert MinuteOf(x) < MinuteOf(y) + MINUTE_MS;
    }
  }

  /** A part of the line inside one minute changes that minute's bucket only. */
  lemma CreditInOneMinute(buckets: Buckets, ids: seq<string>, meter: Meter, r: Ramp, from: real, to: real)
    requires WellFormed(buckets, ids) && Tracks(ids, meter) && r.Valid()
    requires from < to <= MinuteOf(from) as real + MINUTE
    ensures var m := MinuteOf(from);
            && Credited(buckets, ids, meter, r, from, to)
            == buckets[m := Add(BucketAt(buckets, m, ids), meter, to - from, r.Area(from, to))]
  {
    var m := MinuteOf(from);
    var d, e := Durations(from, to), Energies(r, from, to);
    OneMinute(from, to);
    assert d(m) == to - from && e(m) == r.Area(from, to);
    forall n | n in buckets && n != m ensures d(n) == 0.0 && e(n) == 0.0 {
      NoOverlap(n, r, from, to);
    }
    SpreadInOne(buckets, ids, meter, d, e, m);
  }

  lemma OneMinute(from: real, to: real)
    requires from < to <= MinuteOf(from) as real + MINUTE
    ensures Minutes(from, to) == {MinuteOf(from)}
    ensures Edge(MinuteOf(from), from) == from && Edge(MinuteOf(from), to) == to
  {
    forall n ensures n in Minutes(from, to) <==> n == MinuteOf(from) {
      if n in Minutes(from, to) { assert n < MinuteOf(from) + MINUTE_MS; }
    }
  }

  /** Only the line matters, not the samples it was drawn through. */
  lemma SameLine(buckets: Buckets, ids: seq<string>, meter: Meter, r: Ramp, r': Ramp, from: real, to: real)
    requires r.Valid() && r'.Valid()
    requires forall t :: r.At(t) == r'.At(t)
    ensures Credited(buckets, ids, meter, r, from, to) == Credited(buckets, ids, meter, r', from, to)
  {
    forall m ensures Energies(r, from, to)(m) == Energies(r', from, to)(m) {
      SameArea(r, r', Edge(m, from), Edge(m, to));
    }
    SpreadSame(buckets, ids, meter, Minutes(from, to), Durations(from, to), Energies(r, from, to),
               Energies(r', from, to));
  }

  lemma SameArea(r: Ramp, r': Ramp, x: real, y: real)
    requires r.Valid() && r'.Valid() && r.At(x) == r'.At(x) && r.At(y) == r'.At(y)
    ensures r.Area(x, y) == r'.Area(x, y)
  {
  }

  /**
    Cutting an interval at any interior instant, then crediting the two halves as intervals of
    their own, gives the same buckets as crediting it whole.
   */
  lemma CuttingIsInvisible(buckets: Buckets, ids: seq<string>, meter: Meter, r: Ramp, cut: real)
    requires WellFormed(buckets, ids) && Tracks(ids, meter) && r.Valid()
    requires r.previous.atMs < cut < r.current.atMs
    ensures var head := Ramp(r.previous, Sample(cut, r.At(cut)));
            && Credited(Credited(buckets, ids, meter, head, r.previous.atMs, cut), ids, meter, r.From(cut), cut,
                        r.current.atMs)
            == Credited(buckets, ids, meter, r, r.previous.atMs, r.current.atMs)
  {
    var head := Ramp(r.previous, Sample(cut, r.At(cut)));
    forall t ensures head.At(t) == r.At(t) {
      HeadKeepsLine(r, cut, t);
    }
    forall t ensures r.From(cut).Valid() && r.From(cut).At(t) == r.At(t) {
      CutKeepsLine(r, cut, t);
    }
    SameLine(buckets, ids, meter, head, r, r.previous.atMs, cut);
    SameLine(Credited(buckets, ids, meter, r, r.previous.atMs, cut), ids, meter, r.From(cut), r, cut, r.current.atMs);
    CreditsJoin(buckets, ids, meter, r, r.previous.atMs, cut, r.current.atMs);
  }

  // --- Conservation ---------------------------------------------------------------------------

  /** The minutes that start before `to`, in order, from the minute starting at `m` on. */
  function MinuteRun(m: int, to: real): seq<int>
    decreases (to - m as real).Floor
  {
    if m as real >= to then [] else [m] + MinuteRun(m + MINUTE_MS, to)
  }

  function SumOver(run: seq<int>, amount: int -> real): real {
    if run == [] then 0.0 else amount(run[0]) + SumOver(run[1..], amount)
  }

  lemma {:induction false} MinuteRunElements(m: int, to: real, n: int)
    requires m % MINUTE_MS == 0
    ensures n in MinuteRun(m, to) <==> n % MINUTE_MS == 0 && m <= n && n as real < to
    ensures forall i :: 0 <= i < |MinuteRun(m, to)| ==> MinuteRun(m, to)[i] == m + i * MINUTE_MS
    decreases (to - m as real).Floor
  {
    if m as real < to {
      MinuteRunElements(m + MINUTE_MS, to, n);
    }
  }

  lemma {:induction false} RunSums(m: int, r: Ramp, from: real, to: real)
    requires r.Valid() && m % MINUTE_MS == 0 && from <= to && from < m as real + MINUTE
    ensures SumOver(MinuteRun(m, to), Durations(from, to)) == if m as real < to then to - Edge(m, from) else 0.0
    ensures SumOver(MinuteRun(m, to), Energies(r, from, to))
            == if m as real < to then r.Area(Edge(m, from), to) else 0.0
    decreases (to - m as real).Floor
  {
    if m as real < to {
      var next := m + MINUTE_MS;
      RunSums(next, r, from, to);
      assert MinuteRun(m, to)[1..] == MinuteRun(next, to);
      if next as real < to {
        assert Edge(m, to) == next as real == Edge(next, from);
        AreaJoins(r, Edge(m, from), next as real, to);
      } else {
        assert Edge(m, to) == to;
      }
    }
  }

  /**
    Splitting conserves: over the minutes an interval touches, each counted once, the durations
    sum to its length and the energies to its whole trapezoid.
   */
  lemma SplitConserves(r: Ramp)
    requires r.Valid()
    ensures var s, e := r.previous.atMs, r.current.atMs;
            var run := MinuteRun(MinuteOf(s), e);
            && (set m | m in run) == Minutes(s, e)
            && (forall i, j :: 0 <= i < j < |run| ==> run[i] < run[j])
            && SumOver(run, Durations(s, e)) == e - s
            && SumOver(run, Energies(r, s, e)) == r.Area(s, e)
  {
    var s, e := r.previous.atMs, r.current.atMs;
    var run := MinuteRun(MinuteOf(s), e);
    forall m ensures m in run <==> m in Minutes(s, e) {
      MinuteRunElements(MinuteOf(s), e, m);
    }
    MinuteRunElements(MinuteOf(s), e, 0);
    RunSums(MinuteOf(s), r, s, e);
    assert Edge(MinuteOf(s), s) == s;
  }
}
