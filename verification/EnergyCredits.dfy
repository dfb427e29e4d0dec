/**
  The account behind the buckets: which intervals `record` integrates, for which meter, and that a log of
  them never holds an instant at or after zero twice, and the fleet's time exactly where all nodes' is.
 */
module EnergyCredits {
  import opened Options
  import opened EnergyArithmetic
  import opened EnergyBuckets
  import opened EnergyState
  import opened EnergyInvariant
  import opened EnergyPersistence

  /** The interval [from, to) went to a node's or the fleet's accumulators. */
  datatype Credit = Credit(meter: Meter, from: real, to: real)

  function CreditOf(meter: Meter, r: Option<Ramp>): seq<Credit> {
    if r.None? then [] else [Credit(meter, r.value.previous.atMs, r.value.current.atMs)]
  }

  function NodeCredits(st: State, ids: seq<string>, readings: map<string, real>, t: real, k: nat): seq<Credit>
    requires k <= |ids|
  {
    if k == 0 then []
    else NodeCredits(st, ids, readings, t, k - 1)
         + CreditOf(Node(ids[k - 1]), NodeInterval(st, readings, t, ids[k - 1]))
  }

  /** What one call of `record` at `t` integrates. */
  function NewCredits(st: State, ids: seq<string>, readings: map<string, real>, t: real): seq<Credit> {
    if st.latestRecordAt == Some(t) then []
    else
      var start := AfterRollback(st, t);
      NodeCredits(start, ids, readings, t, |ids|) + CreditOf(Fleet, FleetInterval(start, ids, readings, t))
  }

  // --- No instant twice -----------------------------------------------------------------------

  /** `a` ended before `b` began, or no part of it lies at or after zero. */
  predicate Before(a: Credit, b: Credit) {
    a.to <= b.from || a.to <= 0.0
  }

  predicate LogOk(log: seq<Credit>, highWater: Option<real>) {
    && (forall i :: 0 <= i < |log| ==> log[i].to <= 0.0 || (highWater.Some? && log[i].to <= highWater.value))
    && (forall i, j :: 0 <= i < j < |log| && log[i].meter == log[j].meter ==> Before(log[i], log[j]))
  }

  predicate Holds(c: Credit, x: real) {
    c.from <= x < c.to
  }

  /** Credits that all end at `t`, start after the high-water mark, and go to different meters. */
  predicate Fit(credits: seq<Credit>, highWater: Option<real>, t: real) {
    && (forall c :: c in credits ==> c.to == t && c.from < t && (highWater.Some? ==> highWater.value <= c.from))
    && (forall i, j :: 0 <= i < j < |credits| ==> credits[i].meter != credits[j].meter)
  }

  lemma FitExtends(credits: seq<Credit>, c: Credit, highWater: Option<real>, t: real)
    requires Fit(credits, highWater, t) && Fit([c], highWater, t)
    requires forall d :: d in credits ==> d.meter != c.meter
    ensures Fit(credits + [c], highWater, t)
  {
    assert c in [c];
  }

  lemma OneFits(st: State, c: Credit, t: real)
    requires st.latestRecordAt.Some? && c.from == StartOf(st.latestRecordAt.value, st.highWater) < t && c.to == t
    ensures Fit([c], st.highWater, t)
  {
  }

  lemma DistinctPrefix(ids: seq<string>, k: nat, st: State, readings: map<string, real>)
    requires CanRecord(st, ids, readings) && k < |ids|
    ensures ids[k] !in ids[..k]
  {
    hide Inv, ValidReadings;
  }

  /** The credits of the first `k` nodes go to these nodes, and only to those with an interval. */
  lemma {:induction false} NodeCreditsMeters(st: State, ids: seq<string>, readings: map<string, real>, t: real, k: nat)
    requires k <= |ids|
    ensures forall c :: c in NodeCredits(st, ids, readings, t, k) ==>
              c.meter.Node? && c.meter.id in ids[..k] && NodeInterval(st, readings, t, c.meter.id).Some?
  {
    if k > 0 {
      hide NodeInterval;
      NodeCreditsMeters(st, ids, readings, t, k - 1);
      assert ids[..k] == ids[..k - 1] + [ids[k - 1]];
    }
  }

  lemma OneMoreFits(before: seq<Credit>, st: State, ids: seq<string>, readings: map<string, real>, t: real, k: nat)
    requires CanRecord(st, ids, readings) && k < |ids| && Fit(before, st.highWater, t)
    requires forall d :: d in before ==> d.meter.Node? && d.meter.id in ids[..k]
    ensures Fit(before + CreditOf(Node(ids[k]), NodeInterval(st, readings, t, ids[k])), st.highWater, t)
  {
    hide NodeInterval, CanRecord, Fit, TimeShare, EnergyShare, StartOf;
    var r := NodeInterval(st, readings, t, ids[k]);
    if r.Some? {
      NodeIntervalFacts(st, ids, readings, t, ids[k], 0);
      OneFits(st, Credit(Node(ids[k]), r.value.previous.atMs, t), t);
      DistinctPrefix(ids, k, st, readings);
      FitExtends(before, Credit(Node(ids[k]), r.value.previous.atMs, t), st.highWater, t);
    } else {
      assert before + [] == before;
    }
  }

  lemma NothingFits(highWater: Option<real>, t: real)
    ensures Fit([], highWater, t)
  {
  }

  lemma {:induction false} NodeCreditsFit(st: State, ids: seq<string>, readings: map<string, real>, t: real, k: nat)
    requires CanRecord(st, ids, readings) && k <= |ids|
    ensures Fit(NodeCredits(st, ids, readings, t, k), st.highWater, t)
  {
    hide NodeInterval, CanRecord, Fit, CreditOf;
    if k == 0 {
      NothingFits(st.highWater, t);
    } else {
      NodeCreditsFit(st, ids, readings, t, k - 1);
      NodeCreditsMeters(st, ids, readings, t, k - 1);
      OneMoreFits(NodeCredits(st, ids, readings, t, k - 1), st, ids, readings, t, k - 1);
    }
  }

  lemma CreditsOfRecordFit(st: State, ids: seq<string>, readings: map<string, real>, t: real)
    requires CanRecord(st, ids, readings)
    ensures Fit(NodeCredits(st, ids, readings, t, |ids|) + CreditOf(Fleet, FleetInterval(st, ids, readings, t)),
                st.highWater, t)
    ensures NodeCredits(st, ids, readings, t, |ids|) + CreditOf(Fleet, FleetInterval(st, ids, readings, t)) != [] ==>
              Integrates(st, ids, readings, t)
  {
    var nodes := NodeCredits(st, ids, readings, t, |ids|);
    NodeCreditsFit(st, ids, readings, t, |ids|);
    NodeCreditsMeters(st, ids, readings, t, |ids|);
    var f := FleetInterval(st, ids, readings, t);
    if f.Some? {
      FleetIntervalFacts(st, ids, readings, t, 0);
      FitExtends(nodes, Credit(Fleet, f.value.previous.atMs, t), st.highWater, t);
    } else {
      assert nodes + CreditOf(Fleet, f) == nodes;
      if nodes != [] { assert nodes[0] in nodes; }
    }
  }

  lemma NewCreditsFit(st: State, ids: seq<string>, readings: map<string, real>, t: real)
    requires CanRecord(st, ids, readings)
    ensures Fit(NewCredits(st, ids, readings, t), st.highWater, t)
    ensures NewCredits(st, ids, readings, t) != [] ==>
              st.latestRecordAt != Some(t) && Integrates(AfterRollback(st, t), ids, readings, t)
  {
    if st.latestRecordAt != Some(t) {
      RollbackKeepsInv(st, ids, t);
      CreditsOfRecordFit(AfterRollback(st, t), ids, readings, t);
    }
  }

  /**
    Every credit of a record ends at its timestamp and is at most ten seconds long; a record that integrates has one.
   */
  lemma NewCreditsSized(st: State, ids: seq<string>, readings: map<string, real>, t: real)
    requires CanRecord(st, ids, readings)
    ensures forall c :: c in NewCredits(st, ids, readings, t) ==> Sized(c, ids, t)
    ensures st.latestRecordAt != Some(t) && Integrates(AfterRollback(st, t), ids, readings, t) ==>
              NewCredits(st, ids, readings, t) != []
  {
    if st.latestRecordAt != Some(t) {
      var start := AfterRollback(st, t);
      RollbackCanRecord(st, ids, readings, t);
      NodeCreditsSized(start, ids, readings, t, |ids|);
      if FleetInterval(start, ids, readings, t).Some? { FleetCreditSized(start, ids, readings, t); }
      hide CanRecord, NodeInterval, FleetInterval, NodeCredits, Sized, AfterRollback, Integrates;
      if Integrates(start, ids, readings, t) {
        var id := IntegratesByNode(start, ids, readings, t);
        assert id in ids[..|ids|];
      }
    }
  }

  /** The length of a credit. */
  predicate Sized(c: Credit, ids: seq<string>, t: real) {
    ids != [] && Tracks(ids, c.meter) && c.from < c.to == t && t <= c.from + MAX_GAP_MS
  }

  lemma NodeCreditSized(st: State, ids: seq<string>, readings: map<string, real>, t: real, id: string)
    requires id in ids && NodeInterval(st, readings, t, id).Some?
    ensures CreditOf(Node(id), NodeInterval(st, readings, t, id))
            == [Credit(Node(id), NodeInterval(st, readings, t, id).value.previous.atMs, t)]
    ensures Sized(Credit(Node(id), NodeInterval(st, readings, t, id).value.previous.atMs, t), ids, t)
  {
  }

  lemma FleetCreditSized(st: State, ids: seq<string>, readings: map<string, real>, t: real)
    requires FleetInterval(st, ids, readings, t).Some?
    ensures var f := FleetInterval(st, ids, readings, t); Sized(Credit(Fleet, f.value.previous.atMs, t), ids, t)
  {
    hide Total;
  }

  lemma {:induction false} NodeCreditsSized(st: State, ids: seq<string>, readings: map<string, real>, t: real, k: nat)
    requires k <= |ids|
    ensures forall c :: c in NodeCredits(st, ids, readings, t, k) ==> Sized(c, ids, t)
    ensures forall id :: id in ids[..k] && NodeInterval(st, readings, t, id).Some? ==>
              NodeCredits(st, ids, readings, t, k) != []
  {
    if k > 0 {
      hide NodeInterval, Sized;
      NodeCreditsSized(st, ids, readings, t, k - 1);
      assert ids[..k] == ids[..k - 1] + [ids[k - 1]];
      if NodeInterval(st, readings, t, ids[k - 1]).Some? { NodeCreditSized(st, ids, readings, t, ids[k - 1]); }
    }
  }

  /** A record appends to the log only what lies after everything in it. */
  lemma RecordKeepsLog(st: State, ids: seq<string>, readings: map<string, real>, tokens: Option<TokenReading>,
                       t: real, log: seq<Credit>)
    requires CanRecord(st, ids, readings) && t <= MAX_SAFE_INTEGER as real && LogOk(log, st.highWater)
    ensures LogOk(log + NewCredits(st, ids, readings, t), Recorded(st, ids, readings, tokens, t).highWater)
  {
    NewCreditsFit(st, ids, readings, t);
    if st.latestRecordAt == Some(t) {
      assert log + NewCredits(st, ids, readings, t) == log;
    } else {
      HighWaterMoves(st, ids, readings, tokens, t);
      LogExtends(log, NewCredits(st, ids, readings, t), st.highWater,
                 Recorded(st, ids, readings, tokens, t).highWater, t);
    }
  }

  lemma HighWaterMoves(st: State, ids: seq<string>, readings: map<string, real>, tokens: Option<TokenReading>, t: real)
    requires st.latestRecordAt != Some(t) && t <= MAX_SAFE_INTEGER as real
    ensures Recorded(st, ids, readings, tokens, t).highWater
         == if Integrates(AfterRollback(st, t), ids, readings, t) && ValidHighWater(t) then Advance(st.highWater, t)
            else st.highWater
  {
  }

  lemma LogExtends(log: seq<Credit>, added: seq<Credit>, before: Option<real>, after: Option<real>, t: real)
    requires LogOk(log, before) && Fit(added, before, t)
    requires before.Some? ==> after.Some? && before.value <= after.value
    requires added != [] ==> t <= 0.0 || (after.Some? && t <= after.value)
    ensures LogOk(log + added, after)
  {
    forall i, j | 0 <= i < j < |log + added|
      ensures (log + added)[i].meter == (log + added)[j].meter ==> Before((log + added)[i], (log + added)[j])
    {
      if i < |log| <= j { assert added[j - |log|] in added; }
      if |log| <= i { assert added[i - |log|].meter != added[j - |log|].meter; }
    }
    forall i | 0 <= i < |log + added|
      ensures (log + added)[i].to <= 0.0 || (after.Some? && (log + added)[i].to <= after.value)
    {
      if |log| <= i { assert added[i - |log|] in added; }
    }
  }

  lemma CeilingKeepsLog(log: seq<Credit>, highWater: real)
    requires LogOk(log, Some(highWater))
    ensures LogOk(log, Some(Ceiling(highWater) as real))
  {
  }

  /** Forgetting a mark of zero forgets nothing that matters. */
  lemma NoMarkKeepsLog(log: seq<Credit>, highWater: Option<real>)
    requires LogOk(log, highWater) && (highWater.Some? ==> highWater.value <= 0.0)
    ensures LogOk(log, None)
  {
  }

  // --- Fleet time is the time of all nodes together -------------------------------------------

  ghost predicate Covers(log: seq<Credit>, meter: Meter, x: real) {
    exists i :: 0 <= i < |log| && log[i].meter == meter && Holds(log[i], x)
  }

  /** An instant is credited to the fleet exactly when it is credited to every node. */
  ghost predicate JointAt(log: seq<Credit>, ids: seq<string>, x: real) {
    Covers(log, Fleet, x) <==> ids != [] && forall id :: id in ids ==> Covers(log, Node(id), x)
  }

  lemma CoversConcat(a: seq<Credit>, b: seq<Credit>, meter: Meter, x: real)
    ensures Covers(a + b, meter, x) <==> Covers(a, meter, x) || Covers(b, meter, x)
  {
    if i :| 0 <= i < |a| && a[i].meter == meter && Holds(a[i], x) {
      assert (a + b)[i] == a[i];
    }
    if i :| 0 <= i < |b| && b[i].meter == meter && Holds(b[i], x) {
      assert (a + b)[|a| + i] == b[i];
    }
  }

  lemma CoversOne(meter: Meter, r: Option<Ramp>, other: Meter, x: real)
    ensures Covers(CreditOf(meter, r), other, x) <==>
              r.Some? && meter == other && r.value.previous.atMs <= x < r.value.current.atMs
  {
    if r.Some? {
      var credits := CreditOf(meter, r);
      assert credits[0] == Credit(meter, r.value.previous.atMs, r.value.current.atMs);
    }
  }

  /** The instant lies in the interval that a record at `t` integrates, if it integrates any. */
  predicate InNewInterval(st: State, t: real, x: real) {
    st.latestRecordAt.Some? && StartOf(st.latestRecordAt.value, st.highWater) <= x < t
  }

  lemma {:induction false} NodeCreditsCover(st: State, ids: seq<string>, readings: map<string, real>, t: real, k: nat,
                                            meter: Meter, x: real)
    requires CanRecord(st, ids, readings) && k <= |ids|
    ensures Covers(NodeCredits(st, ids, readings, t, k), meter, x) <==>
              && meter.Node? && meter.id in ids[..k]
              && NodeInterval(st, readings, t, meter.id).Some? && InNewInterval(st, t, x)
  {
    hide CanRecord, NodeInterval, Covers;
    if k == 0 {
      NothingCovers(meter, x);
    } else {
      var id := ids[k - 1];
      NodeCreditsCover(st, ids, readings, t, k - 1, meter, x);
      CoversConcat(NodeCredits(st, ids, readings, t, k - 1), CreditOf(Node(id), NodeInterval(st, readings, t, id)),
                   meter, x);
      CoversOne(Node(id), NodeInterval(st, readings, t, id), meter, x);
      if NodeInterval(st, readings, t, id).Some? { NodeIntervalFacts(st, ids, readings, t, id, 0); }
      assert ids[..k] == ids[..k - 1] + [id];
    }
  }

  lemma NothingCovers(meter: Meter, x: real)
    ensures !Covers([], meter, x)
  {
  }

  lemma RecordCovers(st: State, ids: seq<string>, readings: map<string, real>, t: real, meter: Meter, x: real)
    requires CanRecord(st, ids, readings) && Tracks(ids, meter)
    ensures Covers(NodeCredits(st, ids, readings, t, |ids|) + CreditOf(Fleet, FleetInterval(st, ids, readings, t)),
                   meter, x) <==>
              && InNewInterval(st, t, x)
              && match meter
                 case Node(id) => NodeInterval(st, readings, t, id).Some?
                 case Fleet => FleetInterval(st, ids, readings, t).Some?
  {
    hide CanRecord, NodeInterval, Covers, FleetInterval;
    var f := FleetInterval(st, ids, readings, t);
    NodeCreditsCover(st, ids, readings, t, |ids|, meter, x);
    assert ids[..|ids|] == ids;
    CoversConcat(NodeCredits(st, ids, readings, t, |ids|), CreditOf(Fleet, f), meter, x);
    CoversOne(Fleet, f, meter, x);
    if f.Some? { FleetIntervalFacts(st, ids, readings, t, 0); }
  }

  /** Behind the high-water mark nothing was credited before. */
  lemma NotCoveredBefore(log: seq<Credit>, highWater: Option<real>, meter: Meter, x: real)
    requires LogOk(log, highWater) && x >= 0.0 && (highWater.Some? ==> highWater.value <= x)
    ensures !Covers(log, meter, x)
  {
  }

  lemma RecordKeepsJoint(st: State, ids: seq<string>, readings: map<string, real>, t: real, log: seq<Credit>, x: real)
    requires CanRecord(st, ids, readings) && LogOk(log, st.highWater) && x >= 0.0 && JointAt(log, ids, x)
    ensures JointAt(log + NewCredits(st, ids, readings, t), ids, x)
  {
    if st.latestRecordAt == Some(t) {
      assert log + NewCredits(st, ids, readings, t) == log;
    } else {
      hide Covers, CanRecord, FleetInterval, NodeInterval, LogOk, NodeCredits;
      RollbackCanRecord(st, ids, readings, t);
      var start, added := AfterRollback(st, t), NewCredits(st, ids, readings, t);
      FleetIntervalIff(start, ids, readings, t);
      forall meter | Tracks(ids, meter)
        ensures Covers(log + added, meter, x) <==> Covers(log, meter, x) || Covers(added, meter, x)
        ensures InNewInterval(start, t, x) ==> !Covers(log, meter, x)
      {
        CoversConcat(log, added, meter, x);
        if InNewInterval(start, t, x) { NotCoveredBefore(log, st.highWater, meter, x); }
      }
      RecordCovers(start, ids, readings, t, Fleet, x);
      forall id | id in ids
        ensures Covers(added, Node(id), x) <==> InNewInterval(start, t, x) && NodeInterval(start, readings, t, id).Some?
        ensures Covers(log + added, Node(id), x) <==> Covers(log, Node(id), x) || Covers(added, Node(id), x)
      {
        RecordCovers(start, ids, readings, t, Node(id), x);
        assert Tracks(ids, Node(id));
      }
      assert Tracks(ids, Fleet);
    }
  }

  lemma RollbackCanRecord(st: State, ids: seq<string>, readings: map<string, real>, t: real)
    requires CanRecord(st, ids, readings)
    ensures CanRecord(AfterRollback(st, t), ids, readings) && AfterRollback(st, t).highWater == st.highWater
  {
    RollbackKeepsInv(st, ids, t);
  }
}
