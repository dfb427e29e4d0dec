/**
  Prometheus histograms in server/collectors/LlmProbe.js:1594-1656: cumulative buckets summed over label
  sets, and quantiles by linear interpolation. Numbers are exact reals.
 */
module HistogramState {
  import opened Options
  import opened RealArithmetic

  datatype Bound = Upper(value: real) | PlusInf

  datatype Bucket = Bucket(upper: Bound, count: real)

  predicate Less(a: Bound, b: Bound) {
    a.Upper? && (b.PlusInf? || a.value < b.value)
  }

  // --- Quantiles ------------------------------------------------------------------------------------

  /** Value at `target` in a bucket that reaches from `prevUpper` to `upper` and from `prevCount` to `count`. */
  function Interpolated(prevUpper: real, upper: real, prevCount: real, count: real, target: real): real {
    if count == prevCount then upper
    else prevUpper + (upper - prevUpper) * ((target - prevCount) / (count - prevCount))
  }

  /** The walk over the buckets. */
  function ValueFrom(buckets: seq<Bucket>, target: real, prevUpper: real, prevCount: real): Option<real> {
    if buckets == [] then None
    else
      var b := buckets[0];
      if b.count >= target then
        if b.upper.PlusInf? then None else Some(Interpolated(prevUpper, b.upper.value, prevCount, b.count, target))
      else if b.upper.PlusInf? then ValueFrom(buckets[1..], target, prevUpper, b.count)
      else ValueFrom(buckets[1..], target, b.upper.value, b.count)
  }

  /** How many observations lie at or below the quantile. */
  function Target(total: real, quantile: real): real {
    total * quantile
  }

  function Quantile(buckets: seq<Bucket>, total: Option<real>, quantile: real): Option<real> {
    if buckets == [] || total.None? || total.value <= 0.0 then None
    else ValueFrom(buckets, Target(total.value, quantile), 0.0, 0.0)
  }

  /** Strictly increasing positive bounds, the infinite one at most last, and counts that never decrease. */
  predicate Cumulative(buckets: seq<Bucket>) {
    && (forall i, j :: 0 <= i < j < |buckets| ==>
        Less(buckets[i].upper, buckets[j].upper) && buckets[i].count <= buckets[j].count)
    && (forall i :: 0 <= i < |buckets| ==>
        buckets[i].count >= 0.0 && (buckets[i].upper.Upper? ==> buckets[i].upper.value > 0.0))
  }

  /** Index of the bucket that holds the target, or the number of buckets. */
  function Holder(buckets: seq<Bucket>, target: real): (i: nat)
    ensures i <= |buckets|
  {
    if buckets == [] || buckets[0].count >= target then 0 else 1 + Holder(buckets[1..], target)
  }

  function LowerBound(buckets: seq<Bucket>, i: nat): real
    requires i < |buckets|
  {
    if i == 0 || buckets[i - 1].upper.PlusInf? then 0.0 else buckets[i - 1].upper.value
  }

  function LowerCount(buckets: seq<Bucket>, i: nat): real
    requires i < |buckets|
  {
    if i == 0 then 0.0 else buckets[i - 1].count
  }

  lemma {:induction false} HolderIs(buckets: seq<Bucket>, target: real)
    ensures var i := Holder(buckets, target);
            && (i < |buckets| ==> buckets[i].count >= target)
            && forall j :: 0 <= j < i ==> buckets[j].count < target
  {
    if buckets != [] && buckets[0].count < target {
      HolderIs(buckets[1..], target);
      var i := Holder(buckets[1..], target);
      forall j | 0 <= j < i + 1 ensures buckets[j].count < target {
        if j > 0 { assert buckets[1..][j - 1].count < target; }
      }
    }
  }

  /**
    The result is interpolated in the bucket that holds the target; it is null exactly when there is none, or it is
    the infinite one.
   */
  lemma {:induction false} ValueAtHolder(buckets: seq<Bucket>, target: real, prevUpper: real, prevCount: real)
    requires Cumulative(buckets)
    ensures var i := Holder(buckets, target);
            ValueFrom(buckets, target, prevUpper, prevCount) ==
              if i == |buckets| || buckets[i].upper.PlusInf? then None
              else Some(Interpolated(if i == 0 then prevUpper else LowerBound(buckets, i), buckets[i].upper.value,
                                     if i == 0 then prevCount else LowerCount(buckets, i), buckets[i].count, target))
  {
    hide Interpolated;
    if buckets != [] && buckets[0].count < target {
      var rest := buckets[1..];
      if buckets[0].upper.PlusInf? {
        assert |buckets| > 1 ==> Less(buckets[0].upper, buckets[1].upper);
        assert rest == [];
      } else {
        RestCumulative(buckets);
        ValueAtHolder(rest, target, buckets[0].upper.value, buckets[0].count);
        var i := Holder(rest, target);
        if 0 < i < |rest| { assert rest[i - 1] == buckets[i] && rest[i] == buckets[i + 1]; }
      }
    }
  }

  lemma RestCumulative(buckets: seq<Bucket>)
    requires Cumulative(buckets) && buckets != []
    ensures Cumulative(buckets[1..])
  {
    var rest := buckets[1..];
    forall i | 0 <= i < |rest| ensures rest[i] == buckets[i + 1] {
    }
  }

  // --- Interpolation ----------------------------------------------------------------------------------

  lemma ShareBounds(a: real, d: real)
    requires 0.0 <= a <= d && d > 0.0
    ensures 0.0 <= a / d <= 1.0
  {
    NonNegativeQuotient(a, d);
    NonNegativeQuotient(d - a, d);
    QuotientMonotone(a, d, d);
    QuotientIs(1.0, d, d);
  }

  lemma Grows(f: real, g: real, d: real)
    requires f >= g && d >= 0.0
    ensures f * d >= g * d
  {
    NonNegativeProduct(f - g, d);
    assert f * d - g * d == (f - g) * d;
  }

  lemma NonNegativeProduct(a: real, b: real)
    requires a >= 0.0 && b >= 0.0
    ensures a * b >= 0.0
  {
  }

  lemma Between(lo: real, hi: real, f: real)
    requires lo <= hi && 0.0 <= f <= 1.0
    ensures lo <= lo + (hi - lo) * f <= hi
  {
    var d := hi - lo;
    Grows(f, 0.0, d);
    Grows(1.0, f, d);
    assert d * f == f * d;
  }

  lemma InterpolatedBetween(lo: real, hi: real, prevCount: real, count: real, target: real)
    requires lo <= hi && prevCount <= target <= count
    ensures lo <= Interpolated(lo, hi, prevCount, count, target) <= hi
  {
    if count != prevCount {
      ShareBounds(target - prevCount, count - prevCount);
      Between(lo, hi, (target - prevCount) / (count - prevCount));
    }
  }

  lemma QuotientMonotone(a: real, b: real, d: real)
    requires a <= b && d > 0.0
    ensures a / d <= b / d
  {
    var x, y := a / d, (b - a) / d;
    QuotientBack(a, d);
    QuotientBack(b - a, d);
    NonNegativeQuotient(b - a, d);
    SumTimes(x, y, d);
    QuotientIs(x + y, d, b);
  }

  lemma SumTimes(x: real, y: real, d: real)
    ensures (x + y) * d == x * d + y * d
  {
  }

  lemma InterpolatedMonotone(lo: real, hi: real, prevCount: real, count: real, target: real, target': real)
    requires lo <= hi && prevCount <= target <= target' <= count
    ensures Interpolated(lo, hi, prevCount, count, target) <= Interpolated(lo, hi, prevCount, count, target')
  {
    if count != prevCount {
      var d := count - prevCount;
      QuotientMonotone(target - prevCount, target' - prevCount, d);
      Grows((target' - prevCount) / d, (target - prevCount) / d, hi - lo);
    }
  }

  // --- The quantile -----------------------------------------------------------------------------------

  lemma HolderTarget(buckets: seq<Bucket>, target: real)
    requires Cumulative(buckets) && target >= 0.0 && Holder(buckets, target) < |buckets|
    ensures var i := Holder(buckets, target);
            LowerCount(buckets, i) <= target <= buckets[i].count
    ensures var i := Holder(buckets, target);
            buckets[i].upper.Upper? ==> 0.0 <= LowerBound(buckets, i) < buckets[i].upper.value
  {
    HolderIs(buckets, target);
    var i := Holder(buckets, target);
    if i > 0 { assert Less(buckets[i - 1].upper, buckets[i].upper); }
  }

  /** A value is found exactly when a finite bucket holds the target, and lies between that bucket's bounds. */
  lemma ValueInItsBucket(buckets: seq<Bucket>, target: real)
    requires Cumulative(buckets) && target >= 0.0
    ensures var i, value := Holder(buckets, target), ValueFrom(buckets, target, 0.0, 0.0);
            && (value.Some? <==> i < |buckets| && buckets[i].upper.Upper?)
            && (value.Some? ==> LowerBound(buckets, i) <= value.value <= buckets[i].upper.value)
  {
    hide Interpolated, ValueFrom, Cumulative;
    ValueAtHolder(buckets, target, 0.0, 0.0);
    var i := Holder(buckets, target);
    if i < |buckets| && buckets[i].upper.Upper? {
      HolderTarget(buckets, target);
      InterpolatedBetween(LowerBound(buckets, i), buckets[i].upper.value, LowerCount(buckets, i), buckets[i].count,
                          target);
    }
  }

  lemma TargetGrows(total: real, q: real, q': real)
    requires total > 0.0 && 0.0 <= q <= q'
    ensures 0.0 <= Target(total, q) <= Target(total, q')
  {
    Grows(q', q, total);
    Grows(q, 0.0, total);
  }

  /**
    The quantile is null exactly when the total is missing or not positive, no bucket reaches the target, or the
    infinite one holds it; otherwise it lies between the bounds of the bucket that holds the target.
   */
  lemma QuantileInItsBucket(buckets: seq<Bucket>, total: Option<real>, quantile: real)
    requires Cumulative(buckets) && quantile >= 0.0
    ensures Quantile(buckets, total, quantile).None? <==>
              || total.None? || total.value <= 0.0
              || Holder(buckets, Target(total.value, quantile)) == |buckets|
              || buckets[Holder(buckets, Target(total.value, quantile))].upper.PlusInf?
    ensures Quantile(buckets, total, quantile).Some? ==>
              var i := Holder(buckets, Target(total.value, quantile));
              LowerBound(buckets, i) <= Quantile(buckets, total, quantile).value <= buckets[i].upper.value
  {
    hide Target, Cumulative, ValueFrom;
    if total.Some? && total.value > 0.0 && buckets != [] {
      TargetGrows(total.value, quantile, quantile);
      ValueInItsBucket(buckets, Target(total.value, quantile));
    }
  }

  /** The first bucket that holds at least `target` observations. */
  predicate HoldsFirst(buckets: seq<Bucket>, i: nat, target: real) {
    i < |buckets| && buckets[i].count >= target && forall j :: 0 <= j < i ==> buckets[j].count < target
  }

  lemma InterpolatedOnLine(lo: real, hi: real, prevCount: real, count: real, target: real)
    requires prevCount < count
    ensures (Interpolated(lo, hi, prevCount, count, target) - lo) * (count - prevCount)
            == (target - prevCount) * (hi - lo)
  {
    var d, a := count - prevCount, target - prevCount;
    QuotientBack(a, d);
    assert (hi - lo) * (a / d) * d == (hi - lo) * (a / d * d);
  }

  /**
    Inside the bucket that holds the quantile, the value lies on the straight line from the bucket's lower bound and
    count to its upper ones; the lower ones of the first bucket are zero. Only a first bucket without observations has
    no such line, and answers its upper bound.
   */
  lemma QuantileInterpolates(buckets: seq<Bucket>, total: real, quantile: real, i: nat)
    requires Cumulative(buckets) && quantile >= 0.0 && total > 0.0
    requires HoldsFirst(buckets, i, total * quantile) && buckets[i].upper.Upper?
    ensures i > 0 ==> buckets[i - 1].upper.Upper?
    ensures Quantile(buckets, Some(total), quantile).Some?
    ensures var value, lower := Quantile(buckets, Some(total), quantile).value,
            if i == 0 then Bucket(Upper(0.0), 0.0) else buckets[i - 1];
            && (value - lower.upper.value) * (buckets[i].count - lower.count)
               == (total * quantile - lower.count) * (buckets[i].upper.value - lower.upper.value)
            && (buckets[i].count == total * quantile ==> value == buckets[i].upper.value)
  {
    hide ValueFrom, Interpolated;
    var target := Target(total, quantile);
    TargetGrows(total, quantile, quantile);
    FirstHolder(buckets, i, target);
    ValueAtHolder(buckets, target, 0.0, 0.0);
    HolderTarget(buckets, target);
    var lo, before := LowerBound(buckets, i), LowerCount(buckets, i);
    if i > 0 { assert Less(buckets[i - 1].upper, buckets[i].upper); }
    if before < buckets[i].count {
      InterpolatedOnLine(lo, buckets[i].upper.value, before, buckets[i].count, target);
      InterpolatedAtEnd(lo, buckets[i].upper.value, before, buckets[i].count);
    } else {
      EmptyBucketAnswersUpper(lo, buckets[i].upper.value, before, target);
    }
  }

  lemma InterpolatedAtEnd(lo: real, hi: real, prevCount: real, count: real)
    requires prevCount < count
    ensures Interpolated(lo, hi, prevCount, count, count) == hi
  {
    QuotientIs(1.0, count - prevCount, count - prevCount);
  }

  lemma EmptyBucketAnswersUpper(lo: real, hi: real, count: real, target: real)
    ensures Interpolated(lo, hi, count, count, target) == hi
  {
  }

  lemma FirstHolder(buckets: seq<Bucket>, i: nat, target: real)
    requires HoldsFirst(buckets, i, target)
    ensures Holder(buckets, target) == i
  {
    hide Holder;
    HolderIs(buckets, target);
  }

  lemma HolderMonotone(buckets: seq<Bucket>, target: real, target': real)
    requires target <= target'
    ensures Holder(buckets, target) <= Holder(buckets, target')
  {
    hide Holder;
    HolderIs(buckets, target);
    HolderIs(buckets, target');
    var k := Holder(buckets, target');
    assert k < |buckets| ==> buckets[k].count >= target';
  }

  lemma BoundsInOrder(buckets: seq<Bucket>, i: nat, j: nat)
    requires Cumulative(buckets) && i < j < |buckets| && buckets[j].upper.Upper?
    ensures buckets[i].upper.Upper? && buckets[i].upper.value <= LowerBound(buckets, j)
  {
    assert Less(buckets[i].upper, buckets[j].upper);
    assert Less(buckets[j - 1].upper, buckets[j].upper);
    if i < j - 1 { assert Less(buckets[i].upper, buckets[j - 1].upper); }
  }

  lemma ValueMonotone(buckets: seq<Bucket>, target: real, target': real)
    requires Cumulative(buckets) && 0.0 <= target <= target'
    ensures var v, v' := ValueFrom(buckets, target, 0.0, 0.0), ValueFrom(buckets, target', 0.0, 0.0);
            v'.Some? ==> v.Some? && v.value <= v'.value
  {
    hide Interpolated, ValueFrom, Holder;
    if ValueFrom(buckets, target', 0.0, 0.0).Some? {
      ValueInItsBucket(buckets, target);
      ValueInItsBucket(buckets, target');
      HolderMonotone(buckets, target, target');
      var i, j := Holder(buckets, target), Holder(buckets, target');
      if i < j {
        BoundsInOrder(buckets, i, j);
      } else {
        ValueAtHolder(buckets, target, 0.0, 0.0);
        ValueAtHolder(buckets, target', 0.0, 0.0);
        HolderTarget(buckets, target);
        HolderTarget(buckets, target');
        InterpolatedMonotone(LowerBound(buckets, i), buckets[i].upper.value, LowerCount(buckets, i), buckets[i].count,
                             target, target');
      }
    }
  }

  /** A larger quantile gives a larger value, and a value at all only if the smaller one does. */
  lemma QuantileMonotone(buckets: seq<Bucket>, total: Option<real>, q: real, q': real)
    requires Cumulative(buckets) && 0.0 <= q <= q'
    ensures Quantile(buckets, total, q').Some? ==>
              Quantile(buckets, total, q).Some?
                && Quantile(buckets, total, q).value <= Quantile(buckets, total, q').value
  {
    hide Target, Cumulative, ValueFrom;
    if total.Some? && total.value > 0.0 {
      TargetGrows(total.value, q, q');
      ValueMonotone(buckets, Target(total.value, q), Target(total.value, q'));
    }
  }

  /** The walk of the source: remembers the previous bound and count. */
  method HistogramQuantile(buckets: seq<Bucket>, total: Option<real>, quantile: real) returns (value: Option<real>)
    ensures value == Quantile(buckets, total, quantile)
  {
    if buckets == [] || total.None? || total.value <= 0.0 {
      return None;
    }
    hide Target, Interpolated;
    var target := Target(total.value, quantile);
    var prevUpper, prevCount := 0.0, 0.0;
    assert buckets[0..] == buckets;
    for i := 0 to |buckets|
      invariant ValueFrom(buckets[i..], target, prevUpper, prevCount) == ValueFrom(buckets, target, 0.0, 0.0)
    {
      assert buckets[i..][1..] == buckets[i + 1..];
      var b := buckets[i];
      if b.count >= target {
        if b.upper.PlusInf? {
          return None;
        }
        return Some(Interpolated(prevUpper, b.upper.value, prevCount, b.count, target));
      }
      if b.upper.Upper? {
        prevUpper := b.upper.value;
      }
      prevCount := b.count;
    }
    value := None;
  }

  // --- Summing label sets -----------------------------------------------------------------------------

  /** One bucket line of the metrics text: its bound and its count. */
  type Line = Bucket

  /** Sum of the counts of all lines with a bound. */
  function SumAt(lines: seq<Line>, upper: Bound): real {
    if lines == [] then 0.0
    else SumAt(lines[..|lines| - 1], upper)
         + if lines[|lines| - 1].upper == upper then lines[|lines| - 1].count else 0.0
  }

  function Uppers(lines: seq<Line>): set<Bound> {
    set line | line in lines :: line.upper
  }

  function Flat(labelSets: seq<seq<Line>>): seq<Line> {
    if labelSets == [] then [] else Flat(labelSets[..|labelSets| - 1]) + labelSets[|labelSets| - 1]
  }

  lemma {:induction false} SumAtConcat(a: seq<Line>, b: seq<Line>, upper: Bound)
    ensures SumAt(a + b, upper) == SumAt(a, upper) + SumAt(b, upper)
  {
    if b == [] {
      assert a + b == a;
    } else {
      assert (a + b)[..|a + b| - 1] == a + b[..|b| - 1];
      SumAtConcat(a, b[..|b| - 1], upper);
    }
  }

  lemma {:induction false} SumAtAbsent(lines: seq<Line>, upper: Bound)
    requires forall i :: 0 <= i < |lines| ==> lines[i].upper != upper
    ensures SumAt(lines, upper) == 0.0
  {
    if lines != [] { SumAtAbsent(lines[..|lines| - 1], upper); }
  }

  /** In one label set every bound has a line of its own. */
  lemma {:induction false} SumAtOnce(lines: seq<Line>, k: nat)
    requires Cumulative(lines) && k < |lines|
    ensures SumAt(lines, lines[k].upper) == lines[k].count
  {
    var rest, last := lines[..|lines| - 1], lines[|lines| - 1];
    if k == |rest| {
      forall i | 0 <= i < |rest| ensures rest[i].upper != last.upper {
        assert Less(lines[i].upper, last.upper);
      }
      SumAtAbsent(rest, last.upper);
    } else {
      assert Less(lines[k].upper, last.upper);
      SumAtOnce(rest, k);
    }
  }

  function BoundsOf(lines: seq<Line>): (bounds: seq<Bound>)
    ensures |bounds| == |lines| && forall k :: 0 <= k < |lines| ==> bounds[k] == lines[k].upper
  {
    seq(|lines|, k requires 0 <= k < |lines| => lines[k].upper)
  }

  /** The bounds that one label set can have. */
  predicate IncreasingBounds(bounds: seq<Bound>) {
    && (forall i, j :: 0 <= i < j < |bounds| ==> Less(bounds[i], bounds[j]))
    && (forall i :: 0 <= i < |bounds| && bounds[i].Upper? ==> bounds[i].value > 0.0)
  }

  /** Cumulative label sets with the given bounds. */
  predicate HasBounds(labelSets: seq<seq<Line>>, bounds: seq<seq<Bound>>) {
    && |labelSets| == |bounds|
    && forall s :: 0 <= s < |labelSets| ==> Cumulative(labelSets[s]) && BoundsOf(labelSets[s]) == bounds[s]
  }

  /** A label set that has a bound also has every larger bound that any label set has. */
  predicate ClosedUpwards(bounds: seq<seq<Bound>>) {
    forall s, t, u, v ::
      0 <= s < |bounds| && 0 <= t < |bounds| && u in bounds[s] && v in bounds[t] && Less(u, v) ==> v in bounds[s]
  }

  /** Whatever the counts, the sums never decrease from one bound to a larger one. */
  ghost predicate SumsAlwaysRise(bounds: seq<seq<Bound>>) {
    forall labelSets, s, t, u, v ::
      HasBounds(labelSets, bounds)
      && 0 <= s < |bounds| && 0 <= t < |bounds| && u in bounds[s] && v in bounds[t] && Less(u, v) ==>
        SumAt(Flat(labelSets), u) <= SumAt(Flat(labelSets), v)
  }

  lemma SumInOneSet(lines: seq<Line>, upper: Bound)
    requires Cumulative(lines)
    ensures upper !in BoundsOf(lines) ==> SumAt(lines, upper) == 0.0
    ensures forall k :: 0 <= k < |lines| && lines[k].upper == upper ==> SumAt(lines, upper) == lines[k].count
  {
    hide SumAt, Cumulative;
    if upper !in BoundsOf(lines) {
      forall k | 0 <= k < |lines| ensures lines[k].upper != upper {
        assert BoundsOf(lines)[k] in BoundsOf(lines);
      }
      SumAtAbsent(lines, upper);
    }
    forall k | 0 <= k < |lines| && lines[k].upper == upper ensures SumAt(lines, upper) == lines[k].count {
      SumAtOnce(lines, k);
    }
  }

  /** In one label set the count rises from a bound to a larger one that the set has too. */
  lemma OneSetRises(lines: seq<Line>, u: Bound, v: Bound)
    requires Cumulative(lines) && (Less(u, v) || u == v) && (u in BoundsOf(lines) ==> v in BoundsOf(lines))
    ensures 0.0 <= SumAt(lines, u) <= SumAt(lines, v)
  {
    hide SumAt;
    SumInOneSet(lines, u);
    SumInOneSet(lines, v);
    if v in BoundsOf(lines) {
      var l :| 0 <= l < |lines| && BoundsOf(lines)[l] == v;
      if u in BoundsOf(lines) {
        var k :| 0 <= k < |lines| && BoundsOf(lines)[k] == u;
        assert l < k ==> Less(lines[l].upper, lines[k].upper);
      }
    }
  }

  /** The sums over label sets rise from a bound to a larger one that every set has which has the first. */
  lemma {:induction false} SumsStayCumulative(labelSets: seq<seq<Line>>, u: Bound, v: Bound)
    requires Less(u, v) || u == v
    requires forall s :: 0 <= s < |labelSets| ==>
               Cumulative(labelSets[s]) && (u in BoundsOf(labelSets[s]) ==> v in BoundsOf(labelSets[s]))
    ensures 0.0 <= SumAt(Flat(labelSets), u) <= SumAt(Flat(labelSets), v)
  {
    hide SumAt, Cumulative;
    if labelSets == [] {
      NoSum(u);
      NoSum(v);
    } else {
      var rest, last := labelSets[..|labelSets| - 1], labelSets[|labelSets| - 1];
      SumsStayCumulative(rest, u, v);
      SumAtConcat(Flat(rest), last, u);
      SumAtConcat(Flat(rest), last, v);
      OneSetRises(last, u, v);
    }
  }

  lemma NoSum(upper: Bound)
    ensures SumAt(Flat([]), upper) == 0.0
  {
  }

  function Constant(bounds: seq<Bound>, count: real): (lines: seq<Line>)
    ensures BoundsOf(lines) == bounds && forall k :: 0 <= k < |lines| ==> lines[k].count == count
  {
    seq(|bounds|, k requires 0 <= k < |bounds| => Bucket(bounds[k], count))
  }

  /** One observation in every bucket of set `s`, none in the others. */
  function OnlyIn(bounds: seq<seq<Bound>>, s: nat): (labelSets: seq<seq<Line>>)
    ensures |labelSets| == |bounds|
  {
    seq(|bounds|, t requires 0 <= t < |bounds| => Constant(bounds[t], if t == s then 1.0 else 0.0))
  }

  lemma OnlyInHasBounds(bounds: seq<seq<Bound>>, s: nat)
    requires forall t :: 0 <= t < |bounds| ==> IncreasingBounds(bounds[t])
    ensures HasBounds(OnlyIn(bounds, s), bounds)
  {
    forall t | 0 <= t < |bounds| ensures Cumulative(OnlyIn(bounds, s)[t]) {
      var lines := OnlyIn(bounds, s)[t];
      forall i | 0 <= i < |lines| ensures lines[i].upper == bounds[t][i] {
        assert BoundsOf(lines)[i] == bounds[t][i];
      }
    }
  }

  /** Only the bounds of set `s` get a sum. */
  lemma {:induction false} SumOfOnlyIn(bounds: seq<seq<Bound>>, s: nat, n: nat, upper: Bound)
    requires (forall t :: 0 <= t < |bounds| ==> IncreasingBounds(bounds[t])) && s < |bounds| && n <= |bounds|
    ensures SumAt(Flat(OnlyIn(bounds, s)[..n]), upper) == if s < n && upper in bounds[s] then 1.0 else 0.0
  {
    hide SumAt, Cumulative, IncreasingBounds, OnlyIn;
    var labelSets := OnlyIn(bounds, s);
    if n == 0 {
      NoSum(upper);
    } else {
      SumOfOnlyIn(bounds, s, n - 1, upper);
      var last := labelSets[n - 1];
      assert labelSets[..n][..n - 1] == labelSets[..n - 1];
      SumAtConcat(Flat(labelSets[..n - 1]), last, upper);
      OnlyInHasBounds(bounds, s);
      SumInOneSet(last, upper);
      if upper in bounds[n - 1] { CountOfOnlyIn(bounds, s, n - 1, upper); }
    }
  }

  lemma CountOfOnlyIn(bounds: seq<seq<Bound>>, s: nat, t: nat, upper: Bound)
    requires t < |bounds| && upper in bounds[t]
    ensures var lines := OnlyIn(bounds, s)[t];
            exists k :: 0 <= k < |lines| && lines[k].upper == upper && lines[k].count == if t == s then 1.0 else 0.0
  {
    var lines := OnlyIn(bounds, s)[t];
    var k :| 0 <= k < |bounds[t]| && bounds[t][k] == upper;
    assert BoundsOf(lines)[k] == upper;
  }

  /**
    The exact condition on the bounds. The sums over label sets never decrease, whatever the counts, if and only if
    every label set that has a bound also has every larger bound that any label set has.
   */
  lemma SumsRiseIff(bounds: seq<seq<Bound>>)
    requires forall t :: 0 <= t < |bounds| ==> IncreasingBounds(bounds[t])
    ensures SumsAlwaysRise(bounds) <==> ClosedUpwards(bounds)
  {
    hide SumAt, Flat, Cumulative, IncreasingBounds, OnlyIn;
    if ClosedUpwards(bounds) {
      forall labelSets, s, t, u, v |
        HasBounds(labelSets, bounds)
        && 0 <= s < |bounds| && 0 <= t < |bounds| && u in bounds[s] && v in bounds[t] && Less(u, v)
        ensures SumAt(Flat(labelSets), u) <= SumAt(Flat(labelSets), v)
      {
        SumsStayCumulative(labelSets, u, v);
      }
    } else {
      var s, t, u, v :|
        0 <= s < |bounds| && 0 <= t < |bounds| && u in bounds[s] && v in bounds[t] && Less(u, v) && v !in bounds[s];
      var labelSets := OnlyIn(bounds, s);
      OnlyInHasBounds(bounds, s);
      assert labelSets[..|bounds|] == labelSets;
      SumOfOnlyIn(bounds, s, |bounds|, u);
      SumOfOnlyIn(bounds, s, |bounds|, v);
    }
  }

  /** With different bounds they need not stay so: a bound that one set lacks misses that set's share. */
  lemma DifferentBoundsBreakSums()
    ensures var a, b := [Bucket(Upper(1.0), 5.0), Bucket(PlusInf, 5.0)],
            [Bucket(Upper(2.0), 1.0), Bucket(PlusInf, 1.0)];
            && Cumulative(a) && Cumulative(b)
            && SumAt(Flat([a, b]), Upper(1.0)) == 5.0 && SumAt(Flat([a, b]), Upper(2.0)) == 1.0
  {
    var a, b := [Bucket(Upper(1.0), 5.0), Bucket(PlusInf, 5.0)], [Bucket(Upper(2.0), 1.0), Bucket(PlusInf, 1.0)];
    FlatOfTwo(a, b);
    SumAtConcat(a, b, Upper(1.0));
    SumAtConcat(a, b, Upper(2.0));
    SumAtOnce(a, 0);
    SumAtOnce(b, 0);
    SumAtAbsent(a, Upper(2.0));
    SumAtAbsent(b, Upper(1.0));
  }

  lemma FlatOfTwo(a: seq<Line>, b: seq<Line>)
    ensures Flat([a, b]) == a + b
  {
    assert [a, b][..1] == [a] && [a][..0] == [];
    assert Flat([a]) == [] + a;
  }

  // --- Parsing ----------------------------------------------------------------------------------------

  datatype Histogram = Histogram(buckets: seq<Bucket>, total: Option<real>)

  const TOLERANCE := 0.000001

  function Distance(a: real, b: real): real {
    if a < b then b - a else a - b
  }

  /** The infinite bucket must agree with the count series, or the histogram is refused. */
  predicate Refused(lines: seq<Line>, total: Option<real>) {
    total.Some? && SumAt(lines, PlusInf) > 0.0 && Distance(SumAt(lines, PlusInf), total.value) > TOLERANCE
  }

  /** A positive infinite bucket and the count series may differ by a millionth. */
  lemma RefusedByDistance(lines: seq<Line>, total: real)
    ensures Refused(lines, Some(total)) <==>
              SumAt(lines, PlusInf) > 0.0
              && !(-0.000001 <= SumAt(lines, PlusInf) - total <= 0.000001)
    ensures !Refused(lines, None)
  {
    hide SumAt;
  }

  predicate BoundsIncrease(buckets: seq<Bucket>) {
    forall i, j :: 0 <= i < j < |buckets| ==> Less(buckets[i].upper, buckets[j].upper)
  }

  /** The buckets are the sums of the lines, bound by bound, in order. */
  ghost predicate IsSummed(lines: seq<Line>, buckets: seq<Bucket>) {
    && BoundsIncrease(buckets)
    && (forall b :: b in buckets ==> b.upper in Uppers(lines) && b.count == SumAt(lines, b.upper))
    && (forall upper :: upper in Uppers(lines) ==> Bucket(upper, SumAt(lines, upper)) in buckets)
  }

  lemma UppersExtend(lines: seq<Line>, line: Line)
    ensures Uppers(lines + [line]) == Uppers(lines) + {line.upper}
  {
    assert line in lines + [line];
    forall upper | upper in Uppers(lines) ensures upper in Uppers(lines + [line]) {
      var l :| l in lines && l.upper == upper;
      assert l in lines + [line];
    }
  }

  lemma SumAtExtend(lines: seq<Line>, line: Line, upper: Bound)
    ensures SumAt(lines + [line], upper) == SumAt(lines, upper) + if line.upper == upper then line.count else 0.0
  {
    assert (lines + [line])[..|lines|] == lines;
  }

  method TakeBound(bounds: set<Bound>) returns (b: Bound)
    requires bounds != {}
    ensures b in bounds
  {
    b :| b in bounds;
  }

  /** Puts a bucket into an increasing list. */
  method Insert(buckets: seq<Bucket>, b: Bucket) returns (more: seq<Bucket>)
    requires BoundsIncrease(buckets) && forall i :: 0 <= i < |buckets| ==> buckets[i].upper != b.upper
    ensures BoundsIncrease(more) && forall x :: x in more <==> x in buckets || x == b
  {
    var i := |buckets|;
    while i > 0 && Less(b.upper, buckets[i - 1].upper)
      invariant 0 <= i <= |buckets|
      invariant forall j :: i <= j < |buckets| ==> Less(b.upper, buckets[j].upper)
    {
      i := i - 1;
    }
    more := buckets[..i] + [b] + buckets[i..];
    InsertedInOrder(buckets, b, i);
  }

  lemma InsertedInOrder(buckets: seq<Bucket>, b: Bucket, i: nat)
    requires BoundsIncrease(buckets) && i <= |buckets|
    requires (forall j :: 0 <= j < |buckets| ==> buckets[j].upper != b.upper)
    requires forall j :: i <= j < |buckets| ==> Less(b.upper, buckets[j].upper)
    requires i > 0 ==> !Less(b.upper, buckets[i - 1].upper)
    ensures var more := buckets[..i] + [b] + buckets[i..];
            BoundsIncrease(more) && forall x :: x in more <==> x in buckets || x == b
  {
    var more := buckets[..i] + [b] + buckets[i..];
    assert buckets == buckets[..i] + buckets[i..];
    forall j | 0 <= j < i ensures Less(buckets[j].upper, b.upper) {
      if j < i - 1 { assert Less(buckets[j].upper, buckets[i - 1].upper); }
    }
    forall j, k | 0 <= j < k < |more| ensures Less(more[j].upper, more[k].upper) {
      InsertedPair(buckets, b, i, j, k);
    }
  }

  lemma InsertedPair(buckets: seq<Bucket>, b: Bucket, i: nat, j: nat, k: nat)
    requires BoundsIncrease(buckets) && i <= |buckets| && j < k <= |buckets|
    requires forall l :: i <= l < |buckets| ==> Less(b.upper, buckets[l].upper)
    requires forall l :: 0 <= l < i ==> Less(buckets[l].upper, b.upper)
    ensures var more := buckets[..i] + [b] + buckets[i..]; Less(more[j].upper, more[k].upper)
  {
    var more := buckets[..i] + [b] + buckets[i..];
    assert more[j] == if j < i then buckets[j] else if j == i then b else buckets[j - 1];
    assert more[k] == if k < i then buckets[k] else if k == i then b else buckets[k - 1];
  }

  /** Sums the lines by bound, sorts the sums, and refuses a histogram whose infinite bucket contradicts its count. */
  method ParseHistogram(lines: seq<Line>, total: Option<real>) returns (h: Histogram)
    ensures Refused(lines, total) ==> h == Histogram([], None)
    ensures !Refused(lines, total) ==> h.total == total && IsSummed(lines, h.buckets)
  {
    var byUpper: map<Bound, real> := map[];
    var infCount := 0.0;
    for i := 0 to |lines|
      invariant byUpper.Keys == Uppers(lines[..i])
      invariant forall upper :: upper in byUpper ==> byUpper[upper] == SumAt(lines[..i], upper)
      invariant infCount == SumAt(lines[..i], PlusInf)
    {
      var line := lines[i];
      assert lines[..i + 1] == lines[..i] + [line];
      UppersExtend(lines[..i], line);
      forall upper: Bound
        ensures SumAt(lines[..i + 1], upper) == SumAt(lines[..i], upper)
                + if line.upper == upper then line.count else 0.0
      {
        SumAtExtend(lines[..i], line, upper);
      }
      NoSumYet(lines[..i], line.upper);
      if line.upper.PlusInf? {
        infCount := infCount + line.count;
      }
      byUpper := byUpper[line.upper := (if line.upper in byUpper then byUpper[line.upper] else 0.0) + line.count];
    }
    assert lines[..|lines|] == lines;
    if total.Some? && infCount > 0.0 && Distance(infCount, total.value) > TOLERANCE {
      return Histogram([], None);
    }
    var buckets := SortBuckets(byUpper);
    h := Histogram(buckets, total);
  }

  lemma NoSumYet(lines: seq<Line>, upper: Bound)
    ensures upper !in Uppers(lines) ==> SumAt(lines, upper) == 0.0
  {
    if upper !in Uppers(lines) {
      forall i | 0 <= i < |lines| ensures lines[i].upper != upper {
        assert lines[i] in lines;
      }
      SumAtAbsent(lines, upper);
    }
  }

  /** The entries of the table as buckets, in order of their bounds. */
  method SortBuckets(byUpper: map<Bound, real>) returns (buckets: seq<Bucket>)
    ensures BoundsIncrease(buckets)
    ensures forall b :: b in buckets ==> b.upper in byUpper && b.count == byUpper[b.upper]
    ensures forall upper :: upper in byUpper ==> Bucket(upper, byUpper[upper]) in buckets
  {
    buckets := [];
    var rest := byUpper.Keys;
    while rest != {}
      invariant rest <= byUpper.Keys && BoundsIncrease(buckets)
      invariant forall b :: b in buckets ==> b.upper in byUpper && b.upper !in rest && b.count == byUpper[b.upper]
      invariant forall upper :: upper in byUpper && upper !in rest ==> Bucket(upper, byUpper[upper]) in buckets
    {
      var upper := TakeBound(rest);
      forall i | 0 <= i < |buckets| ensures buckets[i].upper != upper {
        assert buckets[i] in buckets;
      }
      buckets := Insert(buckets, Bucket(upper, byUpper[upper]));
      rest := rest - {upper};
    }
  }

  /** The parsed buckets of label sets whose bounds are closed upwards meet what the quantile asks for. */
  lemma ParsedIsCumulative(labelSets: seq<seq<Line>>, bounds: seq<seq<Bound>>, buckets: seq<Bucket>)
    requires HasBounds(labelSets, bounds) && ClosedUpwards(bounds) && IsSummed(Flat(labelSets), buckets)
    ensures Cumulative(buckets)
  {
    hide SumAt, Flat;
    forall i | 0 <= i < |buckets|
      ensures buckets[i].count >= 0.0 && (buckets[i].upper.Upper? ==> buckets[i].upper.value > 0.0)
    {
      assert buckets[i] in buckets;
      SumsStayCumulative(labelSets, buckets[i].upper, buckets[i].upper);
      var s, k := BoundOfLine(labelSets, bounds, buckets[i].upper);
      assert Cumulative(labelSets[s]);
    }
    forall i, j | 0 <= i < j < |buckets| ensures buckets[i].count <= buckets[j].count {
      assert buckets[i] in buckets && buckets[j] in buckets;
      var t, k := BoundOfLine(labelSets, bounds, buckets[j].upper);
      SumsStayCumulative(labelSets, buckets[i].upper, buckets[j].upper);
    }
  }

  /** A bound of the text is the bound of a line of some label set. */
  lemma {:induction false} BoundOfLine(labelSets: seq<seq<Line>>, bounds: seq<seq<Bound>>, upper: Bound)
    returns (s: nat, k: nat)
    requires HasBounds(labelSets, bounds) && upper in Uppers(Flat(labelSets))
    ensures s < |labelSets| && k < |labelSets[s]| && labelSets[s][k].upper == upper && upper in bounds[s]
  {
    hide Cumulative;
    var line :| line in Flat(labelSets) && line.upper == upper;
    var n := |labelSets| - 1;
    if line in labelSets[n] {
      s := n;
      k :| 0 <= k < |labelSets[n]| && labelSets[n][k] == line;
      assert bounds[n][k] in bounds[n];
    } else {
      assert line in Flat(labelSets[..n]);
      s, k := BoundOfLine(labelSets[..n], bounds[..n], upper);
    }
  }
}
