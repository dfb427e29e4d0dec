/**
  Exact arithmetic behind server/energy/FleetEnergyTracker.js: minutes, the part of a minute
  that lies before an instant, and the energy under a straight line between two samples.

  Instants are `real` milliseconds, because the tracker accepts any finite timestamp; the start
  of a minute bucket is an `int`, as the persisted file demands.
 */
module EnergyArithmetic {
  import opened RealArithmetic

  const MINUTE_MS := 60_000
  const MINUTE := 60_000.0
  const MS_PER_HOUR := 3_600_000.0
  const MIN_NODE_WATTS := 28.2
  const MAX_NODE_WATTS := 240.0
  const MAX_SAFE_INTEGER := 9_007_199_254_740_991

  function Clamp(value: real, minimum: real, maximum: real): real {
    Max(minimum, Min(maximum, value))
  }

  /** Start of the minute that holds `t`. */
  function MinuteOf(t: real): (m: int)
    ensures m % MINUTE_MS == 0
    ensures m as real <= t < m as real + MINUTE
  {
    (t / MINUTE).Floor * MINUTE_MS
  }

  /** Start of the minute whose half-open interval (m, m + 60000] holds `t`. */
  function MinuteEndingAtOrAfter(t: real): (m: int)
    ensures m % MINUTE_MS == 0
    ensures (m as real) < t <= m as real + MINUTE
  {
    -MinuteOf(-t) - MINUTE_MS
  }

  /** How much of the minute starting at `m` lies before the instant `t`. */
  function Elapsed(m: int, t: real): real {
    Clamp(t - m as real, 0.0, MINUTE)
  }

  /** Length of the part of [from, to) inside the minute starting at `m`. */
  function Overlap(m: int, from: real, to: real): real {
    Elapsed(m, to) - Elapsed(m, from)
  }

  /** The instant `t` moved into the minute starting at `m`. */
  function Edge(m: int, t: real): real {
    m as real + Elapsed(m, t)
  }

  lemma SameMinute(m: int, n: int, t: real)
    requires m % MINUTE_MS == 0 && n % MINUTE_MS == 0
    requires m as real <= t < m as real + MINUTE && n as real <= t < n as real + MINUTE
    ensures m == n
  {
    assert m < n + MINUTE_MS && n < m + MINUTE_MS;
  }

  // --- Straight lines between two samples -----------------------------------------------------

  datatype Sample = Sample(atMs: real, watts: real)

  /** Two samples, the first strictly before the second. */
  datatype Ramp = Ramp(previous: Sample, current: Sample)
  {
    predicate Valid() {
      previous.atMs < current.atMs
    }

    /** Watts at instant `t`, by linear interpolation. */
    function At(t: real): real
      requires Valid()
    {
      previous.watts + (current.watts - previous.watts) * ((t - previous.atMs) / (current.atMs - previous.atMs))
    }

    function Slope(): real
      requires Valid()
    {
      (current.watts - previous.watts) / (current.atMs - previous.atMs)
    }

    /** Watt-milliseconds under the line between two instants: the trapezoid. */
    function Area(from: real, to: real): real
      requires Valid()
    {
      (At(from) + At(to)) / 2.0 * (to - from)
    }

    /** Watt-milliseconds that fall into the minute starting at `m`, up to the instant `upTo`. */
    function AreaIn(m: int, upTo: real): real
      requires Valid()
    {
      Area(Edge(m, previous.atMs), Edge(m, upTo))
    }

    /** The same line, kept from the instant `cut` on. */
    function From(cut: real): Ramp
      requires Valid()
    {
      Ramp(Sample(cut, At(cut)), current)
    }
  }

  lemma AtBySlope(r: Ramp, t: real)
    requires r.Valid()
    ensures r.At(t) == r.previous.watts + r.Slope() * (t - r.previous.atMs)
  {
    QuotientSwaps(r.current.watts - r.previous.watts, t - r.previous.atMs, r.current.atMs - r.previous.atMs);
  }

  lemma TrapezoidsJoin(w: real, k: real, a: real, b: real, c: real)
    ensures ((w + k * a) + (w + k * b)) / 2.0 * (b - a) + ((w + k * b) + (w + k * c)) / 2.0 * (c - b)
         == ((w + k * a) + (w + k * c)) / 2.0 * (c - a)
  {
  }

  lemma AreaBySlope(r: Ramp, x: real, y: real)
    requires r.Valid()
    ensures var a, b := x - r.previous.atMs, y - r.previous.atMs;
            r.Area(x, y) == ((r.previous.watts + r.Slope() * a) + (r.previous.watts + r.Slope() * b)) / 2.0 * (b - a)
  {
    AtBySlope(r, x);
    AtBySlope(r, y);
    assert y - x == (y - r.previous.atMs) - (x - r.previous.atMs);
  }

  /** The trapezoid over [x, z] is the sum of those over [x, y] and [y, z]. */
  lemma AreaJoins(r: Ramp, x: real, y: real, z: real)
    requires r.Valid()
    ensures r.Area(x, y) + r.Area(y, z) == r.Area(x, z)
  {
    AreaBySlope(r, x, y);
    AreaBySlope(r, y, z);
    AreaBySlope(r, x, z);
    var s := r.previous.atMs;
    TrapezoidsJoin(r.previous.watts, r.Slope(), x - s, y - s, z - s);
  }

  lemma EndOfLine(r: Ramp)
    requires r.Valid()
    ensures r.At(r.current.atMs) == r.current.watts
  {
    QuotientIs(1.0, r.current.atMs - r.previous.atMs, r.current.atMs - r.previous.atMs);
  }

  lemma RiseBetween(w: real, k: real, s: real, a: real, b: real)
    ensures (w + k * (b - s)) - (w + k * (a - s)) == k * (b - a)
  {
    Distribute(k, b - s, a - s);
  }

  /** Between two instants the line rises by its slope. */
  lemma Rise(r: Ramp, a: real, b: real)
    requires r.Valid()
    ensures r.At(b) - r.At(a) == r.Slope() * (b - a)
  {
    hide *;
    AtBySlope(r, a);
    AtBySlope(r, b);
    RiseBetween(r.previous.watts, r.Slope(), r.previous.atMs, a, b);
  }

  lemma SlopeIs(r: Ramp, k: real)
    requires r.previous.atMs < r.current.atMs
    requires r.current.watts - r.previous.watts == k * (r.current.atMs - r.previous.atMs)
    ensures r.Valid() && r.Slope() == k
  {
    QuotientIs(k, r.current.atMs - r.previous.atMs, r.current.watts - r.previous.watts);
  }

  lemma FromIs(r: Ramp, cut: real)
    requires r.Valid()
    ensures r.From(cut) == Ramp(Sample(cut, r.At(cut)), r.current)
    ensures r.previous.atMs < r.current.atMs
  {
  }

  /** Cutting a line at an interior instant leaves its value at every instant unchanged. */
  lemma CutKeepsLine(r: Ramp, cut: real, t: real)
    requires r.Valid() && r.previous.atMs <= cut < r.current.atMs
    ensures r.From(cut).Valid() && r.From(cut).At(t) == r.At(t)
  {
    hide *;
    FromIs(r, cut);
    EndOfLine(r);
    Rise(r, cut, r.current.atMs);
    SlopeIs(r.From(cut), r.Slope());
    AtBySlope(r.From(cut), t);
    Rise(r, cut, t);
  }

  /** So does cutting off everything behind it. */
  lemma HeadKeepsLine(r: Ramp, cut: real, t: real)
    requires r.Valid() && r.previous.atMs < cut < r.current.atMs
    ensures var head := Ramp(r.previous, Sample(cut, r.At(cut))); head.Valid() && head.At(t) == r.At(t)
  {
    hide *;
    var head := Ramp(r.previous, Sample(cut, r.At(cut)));
    AtBySlope(r, cut);
    SlopeIs(head, r.Slope());
    AtBySlope(head, t);
    AtBySlope(r, t);
  }

  lemma Distribute(k: real, a: real, b: real)
    ensures k * a - k * b == k * (a - b)
  {
  }

  /** Between its two samples the line stays between any bounds that hold for both. */
  lemma AtBounded(r: Ramp, lo: real, hi: real, t: real)
    requires r.Valid() && r.previous.atMs <= t <= r.current.atMs
    requires lo <= r.previous.watts <= hi && lo <= r.current.watts <= hi
    ensures lo <= r.At(t) <= hi
  {
    var d := r.current.atMs - r.previous.atMs;
    var f := (t - r.previous.atMs) / d;
    assert f * d == t - r.previous.atMs;
    FractionBounded(t - r.previous.atMs, d);
    Between(r.previous.watts, r.current.watts, f, lo, hi);
  }

  lemma FractionBounded(a: real, d: real)
    requires 0.0 <= a <= d && 0.0 < d
    ensures 0.0 <= a / d <= 1.0
  {
    assert a == a / d * d;
  }

  lemma Between(a: real, b: real, f: real, lo: real, hi: real)
    requires 0.0 <= f <= 1.0 && lo <= a <= hi && lo <= b <= hi
    ensures lo <= a + (b - a) * f <= hi
  {
    var p := (b - a) * f;
    if a <= b {
      Scaled(b - a, f, p);
    } else {
      assert -p == (a - b) * f;
      Scaled(a - b, f, -p);
    }
  }

  lemma Scaled(d: real, f: real, p: real)
    requires 0.0 <= f <= 1.0 && d >= 0.0 && p == d * f
    ensures 0.0 <= p <= d
  {
    assert d * (1.0 - f) >= 0.0;
  }

  /** The energy put into a minute lies between `lo` and `hi` watts for the time put into it. */
  lemma AreaInBounded(r: Ramp, lo: real, hi: real, m: int)
    requires r.Valid()
    requires lo <= r.previous.watts <= hi && lo <= r.current.watts <= hi
    ensures lo * Overlap(m, r.previous.atMs, r.current.atMs) <= r.AreaIn(m, r.current.atMs)
         <= hi * Overlap(m, r.previous.atMs, r.current.atMs)
    ensures Overlap(m, r.previous.atMs, r.current.atMs) >= 0.0
  {
    var x, y := Edge(m, r.previous.atMs), Edge(m, r.current.atMs);
    assert x <= y && y - x == Overlap(m, r.previous.atMs, r.current.atMs);
    if x < y {
      assert r.previous.atMs <= x && y <= r.current.atMs;
      AtBounded(r, lo, hi, x);
      AtBounded(r, lo, hi, y);
      TimesBounded(lo, (r.At(x) + r.At(y)) / 2.0, hi, y - x);
    } else {
      assert y - x == 0.0;
    }
  }

  lemma TimesBounded(lo: real, v: real, hi: real, d: real)
    requires lo <= v <= hi && d >= 0.0
    ensures lo * d <= v * d <= hi * d
  {
    assert (v - lo) * d >= 0.0;
    assert (hi - v) * d >= 0.0;
  }

  // --- Sums over the fleet --------------------------------------------------------------------

  predicate Distinct(ids: seq<string>) {
    forall i, j :: 0 <= i < j < |ids| ==> ids[i] != ids[j]
  }

  /** Entry of a per-node table; the tracker only ever reads entries that are there. */
  function Entry(table: map<string, real>, id: string): real {
    if id in table then table[id] else 0.0
  }

  /** Sum of a per-node table over the fleet's nodes. */
  function Total(ids: seq<string>, table: map<string, real>): real {
    if ids == [] then 0.0 else Total(ids[..|ids| - 1], table) + Entry(table, ids[|ids| - 1])
  }

  lemma {:induction false} TotalAdds(ids: seq<string>, a: map<string, real>, b: map<string, real>,
                                     sum: map<string, real>)
    requires forall id :: id in ids ==> Entry(sum, id) == Entry(a, id) + Entry(b, id)
    ensures Total(ids, sum) == Total(ids, a) + Total(ids, b)
  {
    if ids != [] {
      TotalAdds(ids[..|ids| - 1], a, b, sum);
    }
  }

  lemma Undistribute(k: real, a: real, b: real)
    ensures k * a + k * b == k * (a + b)
  {
  }

  lemma {:induction false} TotalMonotone(ids: seq<string>, a: map<string, real>, b: map<string, real>)
    requires forall id :: id in ids ==> Entry(a, id) <= Entry(b, id)
    ensures Total(ids, a) <= Total(ids, b)
  {
    if ids != [] {
      TotalMonotone(ids[..|ids| - 1], a, b);
    }
  }
}
