/**
  Which coverage a minute can hold: any times and energies of the nodes fit into it as stretches of constant
  draw, with the fleet complete in exactly the time wanted, as long as the nodes can keep apart otherwise. Nodes are
  placed one after the other; each uses up the time in which another one is missing before it joins all others.
 */
module EnergySchedule {
  import opened EnergyArithmetic
  import opened EnergyBuckets
  import opened EnergyState
  import opened EnergyInvariant
  import opened EnergyFullFleet
  import opened RealArithmetic

  /** Some nodes draw constant watts for some time. */
  datatype Segment = Segment(watts: map<string, real>, duration: real)

  type Plan = seq<Segment>

  predicate SegmentOk(s: Segment, ids: seq<string>) {
    ValidReadings(s.watts, ids) && s.duration >= 0.0
  }

  predicate PlanOk(plan: Plan, ids: seq<string>) {
    forall s :: s in plan ==> SegmentOk(s, ids)
  }

  function Length(plan: Plan): real {
    if plan == [] then 0.0 else Length(plan[..|plan| - 1]) + plan[|plan| - 1].duration
  }

  function TimeIn(s: Segment, id: string): real {
    if id in s.watts then s.duration else 0.0
  }

  /** Energy of a constant draw. */
  function Drawn(watts: real, time: real): real {
    watts * time
  }

  function EnergyIn(s: Segment, id: string): real {
    if id in s.watts then Drawn(s.watts[id], s.duration) else 0.0
  }

  lemma DrawnAdds(watts: real, a: real, b: real)
    ensures Drawn(watts, a) + Drawn(watts, b) == Drawn(watts, a + b)
    ensures Drawn(watts, 0.0) == 0.0
  {
  }

  function NodeTime(plan: Plan, id: string): real {
    if plan == [] then 0.0 else NodeTime(plan[..|plan| - 1], id) + TimeIn(plan[|plan| - 1], id)
  }

  lemma {:induction false} LengthNonNegative(plan: Plan)
    requires forall s :: s in plan ==> s.duration >= 0.0
    ensures Length(plan) >= 0.0
  {
    if plan != [] {
      var rest, last := plan[..|plan| - 1], plan[|plan| - 1];
      assert last in plan;
      LengthNonNegative(rest);
    }
  }

  // --- One more node --------------------------------------------------------------------------

  /** The plan with a node active for `time` of it: as late as possible, cutting one segment in two. */
  function Activated(plan: Plan, id: string, watts: real, time: real): Plan
    requires 0.0 <= time <= Length(plan) && forall s :: s in plan ==> s.duration >= 0.0
  {
    if plan == [] then []
    else
      var rest, last := plan[..|plan| - 1], plan[|plan| - 1];
      var here := Min(time, last.duration);
      assert last in plan;
      LengthNonNegative(rest);
      Activated(rest, id, watts, time - here)
      + [Segment(last.watts[id := watts], here), Segment(last.watts, last.duration - here)]
  }

  lemma LengthAppend(plan: Plan, s: Segment)
    ensures Length(plan + [s]) == Length(plan) + s.duration
  {
    assert (plan + [s])[..|plan|] == plan;
  }

  lemma NodeTimeAppend(plan: Plan, s: Segment, id: string)
    ensures NodeTime(plan + [s], id) == NodeTime(plan, id) + TimeIn(s, id)
  {
    assert (plan + [s])[..|plan|] == plan;
  }

  lemma AppendTwo(plan: Plan, s: Segment, s': Segment, id: string)
    ensures Length(plan + [s, s']) == Length(plan) + s.duration + s'.duration
    ensures NodeTime(plan + [s, s'], id) == NodeTime(plan, id) + TimeIn(s, id) + TimeIn(s', id)
  {
    assert plan + [s, s'] == plan + [s] + [s'];
    LengthAppend(plan, s);
    LengthAppend(plan + [s], s');
    NodeTimeAppend(plan, s, id);
    NodeTimeAppend(plan + [s], s', id);
  }

  lemma LastSegment(plan: Plan, id: string)
    requires plan != []
    ensures Length(plan) == Length(plan[..|plan| - 1]) + plan[|plan| - 1].duration
    ensures NodeTime(plan, id) == NodeTime(plan[..|plan| - 1], id) + TimeIn(plan[|plan| - 1], id)
    ensures plan[|plan| - 1] in plan
  {
  }

  /** The node gets its time, and nobody else's changes. */
  lemma {:induction false} ActivatedTimes(plan: Plan, id: string, watts: real, time: real, other: string)
    requires 0.0 <= time <= Length(plan)
    requires forall s :: s in plan ==> s.duration >= 0.0 && id !in s.watts
    ensures Length(Activated(plan, id, watts, time)) == Length(plan)
    ensures NodeTime(Activated(plan, id, watts, time), id) == time
    ensures other != id ==> NodeTime(Activated(plan, id, watts, time), other) == NodeTime(plan, other)
  {
    if plan == [] {
    } else {
      hide NodeTime, Length;
      var rest, last := plan[..|plan| - 1], plan[|plan| - 1];
      LastSegment(plan, other);
      var here := Min(time, last.duration);
      LengthNonNegative(rest);
      ActivatedTimes(rest, id, watts, time - here, other);
      var before := Activated(rest, id, watts, time - here);
      var on, off := Segment(last.watts[id := watts], here), Segment(last.watts, last.duration - here);
      assert Activated(plan, id, watts, time) == before + [on, off];
      hide Activated;
      AppendTwo(before, on, off, id);
      AppendTwo(before, on, off, other);
    }
  }

  /** Every segment of a plan lacks some of the first `k` nodes and runs the others at their own watts. */
  predicate Stage(s: Segment, ids: seq<string>, draws: map<string, real>, k: nat)
    requires k <= |ids|
  {
    && s.duration >= 0.0
    && (forall id :: id in s.watts ==> id in ids[..k] && s.watts[id] == Entry(draws, id))
    && exists id :: id in ids[..k] && id !in s.watts
  }

  predicate Stages(plan: Plan, ids: seq<string>, draws: map<string, real>, k: nat)
    requires k <= |ids|
  {
    forall s :: s in plan ==> Stage(s, ids, draws, k)
  }

  lemma StageWithNext(s: Segment, ids: seq<string>, draws: map<string, real>, k: nat, active: bool, duration: real)
    requires k < |ids| && Distinct(ids) && Stage(s, ids, draws, k) && duration >= 0.0
    ensures Stage(Segment(if active then s.watts[ids[k] := Entry(draws, ids[k])] else s.watts, duration), ids, draws,
                  k + 1)
  {
    assert ids[..k + 1] == ids[..k] + [ids[k]];
    var lacking :| lacking in ids[..k] && lacking !in s.watts;
    assert ids[k] !in ids[..k];
    var s' := Segment(if active then s.watts[ids[k] := Entry(draws, ids[k])] else s.watts, duration);
    assert lacking in ids[..k + 1] && lacking !in s'.watts;
  }

  lemma {:induction false} ActivatedStages(plan: Plan, ids: seq<string>, draws: map<string, real>, k: nat, time: real)
    requires k < |ids| && Distinct(ids) && Stages(plan, ids, draws, k) && 0.0 <= time <= Length(plan)
    ensures Stages(Activated(plan, ids[k], Entry(draws, ids[k]), time), ids, draws, k + 1)
  {
    if plan != [] {
      hide Stage;
      var rest, last := plan[..|plan| - 1], plan[|plan| - 1];
      assert last in plan && Stage(last, ids, draws, k);
      forall s | s in plan ensures s.duration >= 0.0 {
        StageDuration(s, ids, draws, k);
      }
      var here := Min(time, last.duration);
      LengthNonNegative(rest);
      ActivatedStages(rest, ids, draws, k, time - here);
      StageWithNext(last, ids, draws, k, true, here);
      StageWithNext(last, ids, draws, k, false, last.duration - here);
    }
  }

  lemma StageDuration(s: Segment, ids: seq<string>, draws: map<string, real>, k: nat)
    requires k <= |ids| && Stage(s, ids, draws, k)
    ensures s.duration >= 0.0
  {
  }

  // --- Keeping apart ----------------------------------------------------------------------------

  function FirstNodes(ids: seq<string>, draws: map<string, real>, k: nat): map<string, real>
    requires k <= |ids|
  {
    map id | id in ids[..k] :: Entry(draws, id)
  }

  /**
    The first `k` nodes are placed: besides the plan there is a stretch in which all of them are active, no
    longer than it must be.
   */
  ghost predicate Placed(plan: Plan, together: real, ids: seq<string>, draws: map<string, real>,
                         times: map<string, real>, span: real, k: nat)
    requires k <= |ids|
  {
    && Stages(plan, ids, draws, k)
    && together >= 0.0 && Length(plan) + together == span
    && together <= Max(0.0, Total(ids[..k], times) - (k - 1) as real * span)
    && (forall id :: id in ids[..k] ==> NodeTime(plan, id) + together == Entry(times, id))
    && (forall id :: id !in ids[..k] ==> NodeTime(plan, id) == 0.0)
  }

  predicate CanPlace(ids: seq<string>, draws: map<string, real>, times: map<string, real>, span: real) {
    && Distinct(ids) && span >= 0.0
    && forall id :: id in ids ==> 0.0 <= Entry(times, id) <= span
  }

  lemma PlaceNone(ids: seq<string>, draws: map<string, real>, times: map<string, real>, span: real)
    requires span >= 0.0
    ensures Placed([], span, ids, draws, times, span, 0)
  {
    assert ids[..0] == [];
  }

  /** The part of the stretch that the next node does not join becomes a segment of its own. */
  function Leftover(ids: seq<string>, draws: map<string, real>, k: nat, duration: real): Segment
    requires k <= |ids|
  {
    Segment(FirstNodes(ids, draws, k), duration)
  }

  lemma LeftoverStage(ids: seq<string>, draws: map<string, real>, k: nat, duration: real)
    requires k < |ids| && Distinct(ids) && duration >= 0.0
    ensures Stage(Leftover(ids, draws, k, duration), ids, draws, k + 1)
  {
    assert ids[..k + 1] == ids[..k] + [ids[k]];
    assert ids[k] in ids[..k + 1] && ids[k] !in ids[..k];
  }

  /** How long all of the nodes placed so far must be active together. */
  lemma TogetherShrinks(together: real, total: real, k: nat, span: real, time: real, rest: real)
    requires rest + together == span && 0.0 <= time <= span && together >= 0.0
    requires together <= Max(0.0, total - (k - 1) as real * span)
    ensures Max(0.0, time - rest) <= Max(0.0, total + time - k as real * span)
  {
    Undistribute(span, (k - 1) as real, 1.0);
  }

  lemma PlanLacks(plan: Plan, ids: seq<string>, draws: map<string, real>, k: nat)
    requires k < |ids| && Distinct(ids) && Stages(plan, ids, draws, k)
    ensures forall s :: s in plan ==> s.duration >= 0.0 && ids[k] !in s.watts
  {
    forall s | s in plan ensures s.duration >= 0.0 && ids[k] !in s.watts {
      assert Stage(s, ids, draws, k);
      assert ids[k] !in ids[..k];
    }
  }

  lemma TotalOfNext(ids: seq<string>, times: map<string, real>, k: nat)
    requires k < |ids|
    ensures Total(ids[..k + 1], times) == Total(ids[..k], times) + Entry(times, ids[k])
  {
    assert ids[..k + 1][..k] == ids[..k];
  }

  /**
    The next node uses up the time in which some other node is missing before it joins the others. What it
    does not join of the stretch in which all others are active goes to the plan.
   */
  lemma PlaceNext(plan: Plan, together: real, ids: seq<string>, draws: map<string, real>, times: map<string, real>,
                  span: real, k: nat)
    returns (plan': Plan, together': real)
    requires CanPlace(ids, draws, times, span) && k < |ids|
    requires Placed(plan, together, ids, draws, times, span, k)
    ensures Placed(plan', together', ids, draws, times, span, k + 1)
  {
    hide Stage, Total, Activated, NodeTime, Length, Leftover;
    var id, time := ids[k], Entry(times, ids[k]);
    PlanLacks(plan, ids, draws, k);
    LengthNonNegative(plan);
    var here := Min(time, Length(plan));
    var active := Activated(plan, id, Entry(draws, id), here);
    together' := time - here;
    plan' := active + [Leftover(ids, draws, k, together - together')];
    NextStages(plan, ids, draws, k, here, together - together');
    TotalOfNext(ids, times, k);
    TogetherShrinks(together, Total(ids[..k], times), k, span, time, Length(plan));
    forall other
      ensures NodeTime(plan', other) == (if other == id then here else NodeTime(plan, other))
              + if other in ids[..k] then together - together' else 0.0
    {
      NextTimes(plan, ids, draws, k, here, together - together', other);
    }
    NextTimes(plan, ids, draws, k, here, together - together', id);
    NextIds(ids, k);
  }

  lemma NextIds(ids: seq<string>, k: nat)
    requires k < |ids| && Distinct(ids)
    ensures forall other :: other in ids[..k + 1] <==> other in ids[..k] || other == ids[k]
    ensures ids[k] !in ids[..k]
  {
    assert ids[..k + 1] == ids[..k] + [ids[k]];
  }

  lemma NextStages(plan: Plan, ids: seq<string>, draws: map<string, real>, k: nat, here: real, rest: real)
    requires k < |ids| && Distinct(ids) && Stages(plan, ids, draws, k) && 0.0 <= here <= Length(plan) && rest >= 0.0
    requires forall s :: s in plan ==> s.duration >= 0.0
    ensures Stages(Activated(plan, ids[k], Entry(draws, ids[k]), here) + [Leftover(ids, draws, k, rest)], ids, draws,
                   k + 1)
  {
    hide Stage, Activated, Leftover;
    ActivatedStages(plan, ids, draws, k, here);
    LeftoverStage(ids, draws, k, rest);
  }

  lemma NextTimes(plan: Plan, ids: seq<string>, draws: map<string, real>, k: nat, here: real, rest: real, other: string)
    requires k < |ids| && Distinct(ids) && 0.0 <= here <= Length(plan)
    requires forall s :: s in plan ==> s.duration >= 0.0 && ids[k] !in s.watts
    ensures var plan' := Activated(plan, ids[k], Entry(draws, ids[k]), here) + [Leftover(ids, draws, k, rest)];
            && Length(plan') == Length(plan) + rest
            && NodeTime(plan', other) == (if other == ids[k] then here else NodeTime(plan, other))
               + if other in ids[..k] then rest else 0.0
  {
    hide Activated, NodeTime, Length, TimeIn;
    var active := Activated(plan, ids[k], Entry(draws, ids[k]), here);
    ActivatedTimes(plan, ids[k], Entry(draws, ids[k]), here, other);
    LengthAppend(active, Leftover(ids, draws, k, rest));
    NodeTimeAppend(active, Leftover(ids, draws, k, rest), other);
    NextNodeTime(ids, draws, k, rest, other);
  }

  lemma NextNodeTime(ids: seq<string>, draws: map<string, real>, k: nat, duration: real, other: string)
    requires k < |ids| && Distinct(ids)
    ensures TimeIn(Leftover(ids, draws, k, duration), other) == if other in ids[..k] then duration else 0.0
  {
  }

  lemma {:induction false} PlaceAll(ids: seq<string>, draws: map<string, real>, times: map<string, real>, span: real,
                                    k: nat)
    returns (plan: Plan, together: real)
    requires CanPlace(ids, draws, times, span) && k <= |ids|
    ensures Placed(plan, together, ids, draws, times, span, k)
  {
    hide Placed, CanPlace;
    if k == 0 {
      assert span >= 0.0 by { SpanNonNegative(ids, draws, times, span); }
      plan, together := [], span;
      PlaceNone(ids, draws, times, span);
    } else {
      plan, together := PlaceAll(ids, draws, times, span, k - 1);
      plan, together := PlaceNext(plan, together, ids, draws, times, span, k - 1);
    }
  }

  lemma SpanNonNegative(ids: seq<string>, draws: map<string, real>, times: map<string, real>, span: real)
    requires CanPlace(ids, draws, times, span)
    ensures span >= 0.0
  {
  }

  /** No segment of the plan runs the whole fleet, and together they take all of the time. */
  predicate KeepsApart(plan: Plan, ids: seq<string>, draws: map<string, real>, times: map<string, real>, span: real) {
    && Stages(plan, ids, draws, |ids|)
    && Length(plan) == span
    && forall id :: id in ids ==> NodeTime(plan, id) == Entry(times, id)
  }

  /**
    Nodes can be active for given times of a span, never all of them at once, as soon as each of the times fits
    into the span and all of them fit into what the span offers all nodes but one.
   */
  lemma CanKeepApart(ids: seq<string>, draws: map<string, real>, times: map<string, real>, span: real)
    returns (plan: Plan)
    requires CanPlace(ids, draws, times, span)
    requires Total(ids, times) <= (|ids| - 1) as real * span
    ensures KeepsApart(plan, ids, draws, times, span)
  {
    hide Stages, Total;
    var together: real;
    plan, together := PlaceAll(ids, draws, times, span, |ids|);
    assert ids[..|ids|] == ids;
  }

  // --- A whole minute ---------------------------------------------------------------------------

  function PlanEnergy(plan: Plan, id: string): real {
    if plan == [] then 0.0 else PlanEnergy(plan[..|plan| - 1], id) + EnergyIn(plan[|plan| - 1], id)
  }

  /** Time and energy of the fleet: of the segments that run all nodes. */
  function FullTimeIn(s: Segment, ids: seq<string>): real {
    if FullFleet(ids, s.watts) then s.duration else 0.0
  }

  function FullEnergyIn(s: Segment, ids: seq<string>): real {
    if FullFleet(ids, s.watts) then Drawn(Total(ids, s.watts), s.duration) else 0.0
  }

  function FullTime(plan: Plan, ids: seq<string>): real {
    if plan == [] then 0.0 else FullTime(plan[..|plan| - 1], ids) + FullTimeIn(plan[|plan| - 1], ids)
  }

  function FullEnergy(plan: Plan, ids: seq<string>): real {
    if plan == [] then 0.0 else FullEnergy(plan[..|plan| - 1], ids) + FullEnergyIn(plan[|plan| - 1], ids)
  }

  /** The plan has exactly the coverage and the energies of the bucket. */
  predicate Fills(plan: Plan, b: Bucket, ids: seq<string>) {
    && (forall id :: id in ids ==>
        NodeTime(plan, id) == Entry(b.nodeCoverageMs, id) && PlanEnergy(plan, id) == NodeEnergy(b, id))
    && FullTime(plan, ids) == b.fleetCoverageMs && FullEnergy(plan, ids) == b.fleetWattMs
  }

  function MeanDraw(energy: real, time: real): real {
    if time > 0.0 then energy / time else MIN_NODE_WATTS
  }

  lemma MeanDrawIs(energy: real, time: real)
    requires time >= 0.0 && EnergyWithin(MIN_NODE_WATTS, MAX_NODE_WATTS, time, energy)
    ensures MIN_NODE_WATTS <= MeanDraw(energy, time) <= MAX_NODE_WATTS
    ensures Drawn(MeanDraw(energy, time), time) == energy
  {
    if time > 0.0 {
      var w := energy / time;
      assert w * time == energy;
      QuotientBounds(w, time, energy);
    } else {
      assert energy == 0.0;
      assert MeanDraw(energy, time) == MIN_NODE_WATTS;
      DrawnAdds(MIN_NODE_WATTS, 0.0, 0.0);
    }
  }

  lemma QuotientBounds(w: real, time: real, energy: real)
    requires time > 0.0 && w * time == energy && EnergyWithin(MIN_NODE_WATTS, MAX_NODE_WATTS, time, energy)
    ensures MIN_NODE_WATTS <= w <= MAX_NODE_WATTS
  {
    assert MIN_NODE_WATTS * time <= energy <= MAX_NODE_WATTS * time;
    assert (w - MIN_NODE_WATTS) * time >= 0.0;
    assert (MAX_NODE_WATTS - w) * time >= 0.0;
    FactorNonNegative(w - MIN_NODE_WATTS, time);
    FactorNonNegative(MAX_NODE_WATTS - w, time);
  }

  lemma FactorNonNegative(a: real, k: real)
    requires k > 0.0 && a * k >= 0.0
    ensures a >= 0.0
  {
  }

  lemma {:induction false} EnergyOfStages(plan: Plan, ids: seq<string>, draws: map<string, real>, k: nat, id: string)
    requires k <= |ids| && Stages(plan, ids, draws, k)
    ensures PlanEnergy(plan, id) == Drawn(Entry(draws, id), NodeTime(plan, id))
  {
    hide Drawn;
    DrawnAdds(Entry(draws, id), 0.0, 0.0);
    if plan != [] {
      var rest, last := plan[..|plan| - 1], plan[|plan| - 1];
      assert last in plan && Stage(last, ids, draws, k);
      EnergyOfStages(rest, ids, draws, k, id);
      DrawnAdds(Entry(draws, id), NodeTime(rest, id), TimeIn(last, id));
    }
  }

  lemma {:induction false} StagesAreNotFull(plan: Plan, ids: seq<string>, draws: map<string, real>)
    requires Stages(plan, ids, draws, |ids|)
    ensures FullTime(plan, ids) == 0.0 && FullEnergy(plan, ids) == 0.0
  {
    if plan != [] {
      var rest, last := plan[..|plan| - 1], plan[|plan| - 1];
      assert last in plan && Stage(last, ids, draws, |ids|);
      assert ids[..|ids|] == ids;
      StagesAreNotFull(rest, ids, draws);
    }
  }

  lemma StagesOk(plan: Plan, ids: seq<string>, draws: map<string, real>)
    requires Stages(plan, ids, draws, |ids|)
    requires forall id :: id in ids ==> MIN_NODE_WATTS <= Entry(draws, id) <= MAX_NODE_WATTS
    ensures PlanOk(plan, ids)
  {
    assert ids[..|ids|] == ids;
    forall s | s in plan ensures SegmentOk(s, ids) {
      assert Stage(s, ids, draws, |ids|);
    }
  }

  lemma AppendSegment(plan: Plan, s: Segment, ids: seq<string>, id: string)
    ensures NodeTime(plan + [s], id) == NodeTime(plan, id) + TimeIn(s, id)
    ensures PlanEnergy(plan + [s], id) == PlanEnergy(plan, id) + EnergyIn(s, id)
    ensures FullTime(plan + [s], ids) == FullTime(plan, ids) + FullTimeIn(s, ids)
    ensures FullEnergy(plan + [s], ids) == FullEnergy(plan, ids) + FullEnergyIn(s, ids)
    ensures Length(plan + [s]) == Length(plan) + s.duration
  {
    assert (plan + [s])[..|plan|] == plan;
  }

  /** Times, energies and draws of the nodes outside full-fleet time. */
  function PartialTimes(b: Bucket, ids: seq<string>): map<string, real> {
    map id | id in ids :: Entry(b.nodeCoverageMs, id) - b.fleetCoverageMs
  }

  function PartialDraws(b: Bucket, ids: seq<string>, shares: map<string, real>): map<string, real> {
    map id | id in ids ::
      MeanDraw(NodeEnergy(b, id) - Entry(shares, id), Entry(b.nodeCoverageMs, id) - b.fleetCoverageMs)
  }

  function FullDraws(b: Bucket, ids: seq<string>, shares: map<string, real>): map<string, real> {
    map id | id in ids :: MeanDraw(Entry(shares, id), b.fleetCoverageMs)
  }

  predicate Plannable(b: Bucket, ids: seq<string>, shares: map<string, real>) {
    && ids != [] && Distinct(ids) && BucketOk(b, ids) && CoverageWithin(b, ids, MINUTE)
    && Splits(b, ids, shares) && Apart(b, ids, MINUTE)
  }

  lemma PartialFacts(b: Bucket, ids: seq<string>, shares: map<string, real>, id: string)
    requires Plannable(b, ids, shares) && id in ids
    ensures 0.0 <= Entry(b.nodeCoverageMs, id) - b.fleetCoverageMs <= MINUTE - b.fleetCoverageMs
    ensures b.fleetCoverageMs >= 0.0
    ensures EnergyWithin(MIN_NODE_WATTS, MAX_NODE_WATTS, Entry(b.nodeCoverageMs, id) - b.fleetCoverageMs,
                         NodeEnergy(b, id) - Entry(shares, id))
    ensures EnergyWithin(MIN_NODE_WATTS, MAX_NODE_WATTS, b.fleetCoverageMs, Entry(shares, id))
  {
    hide Apart, FleetOk, TokensOk, EnergyWithin, Total;
    assert NodeOk(b, id) && SplitsNode(b, id, Entry(shares, id));
  }

  lemma DrawFacts(b: Bucket, ids: seq<string>, shares: map<string, real>, id: string)
    requires Plannable(b, ids, shares) && id in ids
    ensures MIN_NODE_WATTS <= Entry(PartialDraws(b, ids, shares), id) <= MAX_NODE_WATTS
    ensures MIN_NODE_WATTS <= Entry(FullDraws(b, ids, shares), id) <= MAX_NODE_WATTS
    ensures Drawn(Entry(PartialDraws(b, ids, shares), id), Entry(PartialTimes(b, ids), id))
            == NodeEnergy(b, id) - Entry(shares, id)
    ensures Drawn(Entry(FullDraws(b, ids, shares), id), b.fleetCoverageMs) == Entry(shares, id)
  {
    PartialFacts(b, ids, shares, id);
    hide Plannable, EnergyWithin, MeanDraw, NodeEnergy, Drawn;
    MeanDrawIs(NodeEnergy(b, id) - Entry(shares, id), Entry(b.nodeCoverageMs, id) - b.fleetCoverageMs);
    MeanDrawIs(Entry(shares, id), b.fleetCoverageMs);
  }

  lemma PartialTimesFit(b: Bucket, ids: seq<string>, shares: map<string, real>)
    requires Plannable(b, ids, shares)
    ensures Total(ids, PartialTimes(b, ids)) <= (|ids| - 1) as real * (MINUTE - b.fleetCoverageMs)
  {
    hide Total, BucketOk, Splits;
    TotalTimes(b, ids, PartialTimes(b, ids));
    ApartOutside(Total(ids, b.nodeCoverageMs), b.fleetCoverageMs, |ids| as real);
  }

  lemma ApartOutside(total: real, full: real, n: real)
    requires total - full <= (n - 1.0) * MINUTE
    ensures total - full * n <= (n - 1.0) * (MINUTE - full)
  {
    Distribute(n - 1.0, MINUTE, full);
  }

  /** The full-fleet stretch, put behind a plan that keeps the nodes apart, gives exactly the bucket. */
  lemma PlanForMinute(b: Bucket, ids: seq<string>, shares: map<string, real>) returns (plan: Plan)
    requires Plannable(b, ids, shares)
    ensures PlanOk(plan, ids) && Length(plan) == MINUTE && Fills(plan, b, ids)
  {
    hide *;
    PartialTimesPlace(b, ids, shares);
    PartialTimesFit(b, ids, shares);
    var apart := CanKeepApart(ids, PartialDraws(b, ids, shares), PartialTimes(b, ids), MINUTE - b.fleetCoverageMs);
    var last := Segment(FullDraws(b, ids, shares), b.fleetCoverageMs);
    plan := apart + [last];
    PlanIsOk(b, ids, shares, apart, last);
    PlanFills(b, ids, shares, apart, last);
  }

  lemma PlanFills(b: Bucket, ids: seq<string>, shares: map<string, real>, apart: Plan, last: Segment)
    requires Plannable(b, ids, shares) && last == Segment(FullDraws(b, ids, shares), b.fleetCoverageMs)
    requires KeepsApart(apart, ids, PartialDraws(b, ids, shares), PartialTimes(b, ids), MINUTE - b.fleetCoverageMs)
    ensures Length(apart + [last]) == MINUTE && Fills(apart + [last], b, ids)
  {
    hide Stages, Total, Plannable, PartialDraws, PartialTimes, FullDraws, FullTimeIn, FullEnergyIn, NodeEnergy;
    hide NodeTime, PlanEnergy, FullTime, FullEnergy, Length;
    StagesAreNotFull(apart, ids, PartialDraws(b, ids, shares));
    FullSegment(b, ids, shares);
    AppendSegment(apart, last, ids, "");
    forall id | id in ids
      ensures NodeTime(apart + [last], id) == Entry(b.nodeCoverageMs, id)
      ensures PlanEnergy(apart + [last], id) == NodeEnergy(b, id)
    {
      NodeFilled(b, ids, shares, apart, last, id);
    }
  }

  lemma NodeFilled(b: Bucket, ids: seq<string>, shares: map<string, real>, apart: Plan, last: Segment, id: string)
    requires Plannable(b, ids, shares) && id in ids && last == Segment(FullDraws(b, ids, shares), b.fleetCoverageMs)
    requires Stages(apart, ids, PartialDraws(b, ids, shares), |ids|)
    requires NodeTime(apart, id) == Entry(PartialTimes(b, ids), id)
    ensures NodeTime(apart + [last], id) == Entry(b.nodeCoverageMs, id)
    ensures PlanEnergy(apart + [last], id) == NodeEnergy(b, id)
  {
    hide Plannable, Stages, PartialDraws, MeanDraw, NodeEnergy, Drawn;
    AppendSegment(apart, last, ids, id);
    EnergyOfStages(apart, ids, PartialDraws(b, ids, shares), |ids|, id);
    DrawFacts(b, ids, shares, id);
  }

  lemma PartialTimesPlace(b: Bucket, ids: seq<string>, shares: map<string, real>)
    requires Plannable(b, ids, shares)
    ensures CanPlace(ids, PartialDraws(b, ids, shares), PartialTimes(b, ids), MINUTE - b.fleetCoverageMs)
    ensures 0.0 <= b.fleetCoverageMs <= MINUTE
  {
    forall id | id in ids ensures 0.0 <= Entry(PartialTimes(b, ids), id) <= MINUTE - b.fleetCoverageMs {
      PartialFacts(b, ids, shares, id);
    }
    hide Splits, Apart, Total;
  }

  lemma PlanIsOk(b: Bucket, ids: seq<string>, shares: map<string, real>, apart: Plan, last: Segment)
    requires Plannable(b, ids, shares)
    requires KeepsApart(apart, ids, PartialDraws(b, ids, shares), PartialTimes(b, ids), MINUTE - b.fleetCoverageMs)
    requires last == Segment(FullDraws(b, ids, shares), b.fleetCoverageMs)
    ensures PlanOk(apart + [last], ids)
  {
    hide Plannable, Stages, PartialDraws, MeanDraw;
    forall id | id in ids
      ensures MIN_NODE_WATTS <= Entry(PartialDraws(b, ids, shares), id) <= MAX_NODE_WATTS
      ensures MIN_NODE_WATTS <= Entry(FullDraws(b, ids, shares), id) <= MAX_NODE_WATTS
    {
      DrawFacts(b, ids, shares, id);
    }
    PartialTimesPlace(b, ids, shares);
    StagesOk(apart, ids, PartialDraws(b, ids, shares));
  }

  lemma FullSegment(b: Bucket, ids: seq<string>, shares: map<string, real>)
    requires Plannable(b, ids, shares)
    ensures var s := Segment(FullDraws(b, ids, shares), b.fleetCoverageMs);
            FullTimeIn(s, ids) == b.fleetCoverageMs && FullEnergyIn(s, ids) == b.fleetWattMs
  {
    var draws := FullDraws(b, ids, shares);
    assert ids != [] && b.fleetWattMs == Total(ids, shares);
    hide Plannable, Total, Trapezoid, MeanDraw, Drawn;
    forall id | id in ids
      ensures Entry(shares, id) == Trapezoid(Entry(draws, id), Entry(draws, id), 0.0, b.fleetCoverageMs)
    {
      DrawFacts(b, ids, shares, id);
      ConstantTrapezoid(Entry(draws, id), b.fleetCoverageMs);
    }
    TrapezoidsAddUp(ids, draws, draws, shares, 0.0, b.fleetCoverageMs);
    ConstantTrapezoid(Total(ids, draws), b.fleetCoverageMs);
  }

  lemma ConstantTrapezoid(watts: real, time: real)
    ensures Trapezoid(watts, watts, 0.0, time) == Drawn(watts, time)
  {
  }
}
