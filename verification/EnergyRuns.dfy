/**
  Whole runs of the fleet energy tracker: any sequence of records, prunings, flushes and restarts,
  on any clock, with a crash allowed wherever a restart is.
 */
module EnergyRuns {
  import opened Options
  import opened EnergyArithmetic
  import opened EnergyBuckets
  import opened EnergyState
  import opened EnergyInvariant
  import opened EnergyFullFleet
  import opened EnergyPersistence
  import opened EnergyCredits
  import opened EnergyTelemetry

  datatype Event =
    | Record(snapshots: seq<Snapshot>, tokens: Option<TokenReading>, at: real)
    | Prune(now: real)
    | Flush(now: real)
    | Restart(now: real)

  /**
    The process's memory and the state last written to disk, with everything credited towards each: since a
    restart last forgot its high-water mark (the logs), and ever (the histories).
   */
  datatype System = System(
    memory: State,
    saved: Option<State>,
    log: seq<Credit>,
    savedLog: seq<Credit>,
    history: seq<Credit>,
    savedHistory: seq<Credit>)

  const START := System(FRESH, None, [], [], [], [])

  predicate ValidEvent(e: Event, ids: seq<string>) {
    e.Record? ==> e.at <= MAX_SAFE_INTEGER as real && (e.tokens.Some? ==> ValidTokens(e.tokens.value, ids))
  }

  /**
    A restart on this state drops a positive high-water mark, since no covered bucket from zero on is left to back it.
   */
  predicate Forgets(st: State, ids: seq<string>) {
    st.highWater.Some? && st.highWater.value > 0.0 && !AnyCovered(st, ids)
  }

  ghost function Step(s: System, ids: seq<string>, tolerance: real, e: Event): System {
    match e
    case Record(snapshots, tokens, t) =>
      var readings := Readings(snapshots, ids);
      var added := NewCredits(s.memory, ids, readings, t);
      s.(memory := Recorded(s.memory, ids, readings, tokens, t), log := s.log + added, history := s.history + added)
    case Prune(now) => s.(memory := Pruned(s.memory, now))
    case Flush(now) =>
      if !s.memory.dirty then s
      else
        var memory := Pruned(s.memory, now).(dirty := false);
        s.(memory := memory, saved := Some(memory), savedLog := s.log, savedHistory := s.history)
    case Restart(now) =>
      if s.saved.None? then s.(memory := FRESH, log := [], history := [])
      else
        var memory := Pruned(Loaded(FileOf(s.saved.value, ids), ids, tolerance), now);
        s.(memory := memory, log := if Forgets(s.saved.value, ids) then [] else s.savedLog, history := s.savedHistory)
  }

  ghost function Run(ids: seq<string>, tolerance: real, events: seq<Event>): System {
    if events == [] then START
    else Step(Run(ids, tolerance, events[..|events| - 1]), ids, tolerance, events[|events| - 1])
  }

  // --- Non-negative clocks --------------------------------------------------------------------

  predicate AfterZero(st: State) {
    && (forall m :: m in st.buckets ==> m >= 0)
    && (st.latestRecordAt.Some? ==> st.latestRecordAt.value >= 0.0)
  }

  lemma {:induction false} CreditNodesAfterZero(st: State, ids: seq<string>, readings: map<string, real>, t: real,
                                                k: nat)
    requires CanRecord(st, ids, readings) && AfterZero(st) && k <= |ids|
    ensures forall m :: m in CreditNodes(st, ids, readings, t, k) ==> m >= 0
  {
    if k > 0 {
      CreditNodesAfterZero(st, ids, readings, t, k - 1);
      if NodeInterval(st, readings, t, ids[k - 1]).Some? {
        NodeIntervalFacts(st, ids, readings, t, ids[k - 1], 0);
      }
    }
  }

  lemma CreditFleetAfterZero(st: State, ids: seq<string>, readings: map<string, real>, t: real)
    requires CanRecord(st, ids, readings) && AfterZero(st)
    ensures forall m :: m in CreditFleet(st, ids, readings, t) ==> m >= 0
  {
    CreditNodesAfterZero(st, ids, readings, t, |ids|);
    if FleetInterval(st, ids, readings, t).Some? {
      FleetIntervalFacts(st, ids, readings, t, 0);
    }
  }

  lemma RecordAfterZero(st: State, ids: seq<string>, readings: map<string, real>, tokens: Option<TokenReading>, t: real)
    requires CanRecord(st, ids, readings) && AfterZero(st) && t >= 0.0
    ensures AfterZero(Recorded(st, ids, readings, tokens, t))
  {
    RollbackKeepsInv(st, ids, t);
    CreditFleetAfterZero(AfterRollback(st, t), ids, readings, t);
    var counted := Counted(st, ids, readings, tokens, t);
    forall m | m in counted.buckets ensures m >= 0 {
      assert m in CreditFleet(AfterRollback(st, t), ids, readings, t) || m == MinuteOf(t);
    }
  }

  // --- Every reachable system -----------------------------------------------------------------

  ghost predicate StateOk(st: State, ids: seq<string>, log: seq<Credit>) {
    Inv(st, ids) && AllMade(st.buckets, ids, st.highWater) && LogOk(log, st.highWater)
  }

  ghost predicate SystemOk(s: System, ids: seq<string>) {
    && StateOk(s.memory, ids, s.log)
    && (s.saved.Some? ==> StateOk(s.saved.value, ids, s.savedLog))
  }

  lemma RecordKeepsOk(s: System, ids: seq<string>, tolerance: real, snapshots: seq<Snapshot>,
                      tokens: Option<TokenReading>, t: real)
    requires SystemOk(s, ids) && Distinct(ids) && ValidEvent(Record(snapshots, tokens, t), ids)
    ensures SystemOk(Step(s, ids, tolerance, Record(snapshots, tokens, t)), ids)
  {
    hide Recorded, NewCredits, LogOk, AllMade, Inv, Readings;
    var readings := Readings(snapshots, ids);
    CanRecordWhenInv(s.memory, ids, snapshots);
    RecordKeepsInv(s.memory, ids, readings, tokens, t);
    RecordKeepsMade(s.memory, ids, readings, tokens, t);
    RecordKeepsLog(s.memory, ids, readings, tokens, t, s.log);
  }

  lemma CanRecordWhenInv(st: State, ids: seq<string>, snapshots: seq<Snapshot>)
    requires Inv(st, ids) && Distinct(ids)
    ensures CanRecord(st, ids, Readings(snapshots, ids))
  {
    hide Inv;
  }

  lemma PruneKeepsOk(st: State, ids: seq<string>, log: seq<Credit>, now: real)
    requires StateOk(st, ids, log)
    ensures StateOk(Pruned(st, now), ids, log) && StateOk(Pruned(st, now).(dirty := false), ids, log)
  {
    hide LogOk, Survivors, Inv, AllMade;
    PruneKeepsInv(st, ids, now);
    SubsetMade(st.buckets, Pruned(st, now).buckets, ids, st.highWater);
    CleanKeepsInv(Pruned(st, now), ids);
  }

  lemma CleanKeepsInv(st: State, ids: seq<string>)
    requires Inv(st, ids)
    ensures Inv(st.(dirty := false), ids)
  {
    hide BucketsOk, HighWaterBacked;
  }

  lemma RestartKeepsOk(st: State, ids: seq<string>, log: seq<Credit>, tolerance: real, now: real)
    requires StateOk(st, ids, log) && tolerance >= 0.0
    ensures StateOk(Pruned(Loaded(FileOf(st, ids), ids, tolerance), now), ids, if Forgets(st, ids) then [] else log)
  {
    hide Loaded, FileOf, Inv, LogOk, AllMade, Pruned, Forgets, AnyCovered, Ceiling;
    FlushThenLoad(st, ids, tolerance);
    SurvivedLog(st, ids, log);
    SurvivedMade(st, ids);
    PruneKeepsOk(Loaded(FileOf(st, ids), ids, tolerance), ids, if Forgets(st, ids) then [] else log, now);
  }

  lemma SurvivedLog(st: State, ids: seq<string>, log: seq<Credit>)
    requires StateOk(st, ids, log)
    ensures LogOk(if Forgets(st, ids) then [] else log, Survived(st, ids).highWater)
  {
    hide Inv, LogOk, AnyCovered, AllMade;
    NothingLogged(Survived(st, ids).highWater);
    if !Forgets(st, ids) {
      if AnyCovered(st, ids) && st.highWater.Some? {
        CeilingKeepsLog(log, st.highWater.value);
      } else {
        NoMarkKeepsLog(log, st.highWater);
      }
    }
  }

  lemma SurvivedMade(st: State, ids: seq<string>)
    requires Inv(st, ids) && AllMade(st.buckets, ids, st.highWater)
    ensures AllMade(FromZero(st.buckets), ids, Survived(st, ids).highWater)
  {
    hide Made, Apart, ElapsedTo, Inv, AnyCovered;
    FlushedHighWater(st, ids);
    forall m | m in FromZero(st.buckets) ensures Apart(st.buckets[m], ids, ElapsedTo(m, Survived(st, ids).highWater)) {
      if AnyCovered(st, ids) {
        MarkRoundsUp(m, st.highWater.value);
        ApartLater(st.buckets[m], ids, ElapsedTo(m, st.highWater), ElapsedTo(m, Survived(st, ids).highWater));
      } else {
        NotAnyCovered(st, ids, m);
        UncoveredApart(st.buckets[m], ids);
      }
    }
  }

  lemma MarkRoundsUp(m: int, highWater: real)
    ensures ElapsedTo(m, Some(highWater)) <= ElapsedTo(m, Some(Ceiling(highWater) as real))
  {
  }

  lemma NotAnyCovered(st: State, ids: seq<string>, m: int)
    requires Inv(st, ids) && !AnyCovered(st, ids) && m in st.buckets && m >= 0
    ensures BucketOk(st.buckets[m], ids) && !Covered(st.buckets[m], ids) && ElapsedTo(m, None) == 0.0
  {
  }

  lemma NothingLogged(highWater: Option<real>)
    ensures LogOk([], highWater)
  {
  }

  lemma StepKeepsOk(s: System, ids: seq<string>, tolerance: real, e: Event)
    requires SystemOk(s, ids) && Distinct(ids) && tolerance >= 0.0 && ValidEvent(e, ids)
    ensures SystemOk(Step(s, ids, tolerance, e), ids)
  {
    hide StateOk, Recorded, Loaded, FileOf, Pruned, NewCredits, Readings;
    match e
    case Record(snapshots, tokens, t) => RecordKeepsOk(s, ids, tolerance, snapshots, tokens, t);
    case Prune(now) => PruneKeepsOk(s.memory, ids, s.log, now);
    case Flush(now) => PruneKeepsOk(s.memory, ids, s.log, now);
    case Restart(now) =>
      FreshOk(ids);
      if s.saved.Some? { RestartKeepsOk(s.saved.value, ids, s.savedLog, tolerance, now); }
  }

  lemma FreshOk(ids: seq<string>)
    ensures StateOk(FRESH, ids, [])
  {
    if ids != [] { assert ids[0] in ids; }
  }

  /** Every state reachable from empty by any run meets the invariant, and so does everything saved. */
  lemma {:induction false} EveryRunIsOk(ids: seq<string>, tolerance: real, events: seq<Event>)
    requires Distinct(ids) && tolerance >= 0.0
    requires forall i :: 0 <= i < |events| ==> ValidEvent(events[i], ids)
    ensures SystemOk(Run(ids, tolerance, events), ids)
  {
    hide Step, StateOk;
    FreshOk(ids);
    if events != [] {
      EveryRunIsOk(ids, tolerance, events[..|events| - 1]);
      StepKeepsOk(Run(ids, tolerance, events[..|events| - 1]), ids, tolerance, events[|events| - 1]);
    }
  }

  /**
    After any run whatever, with a clock that may stand still, jump or step back below zero, a
    flush writes buckets of which `_load` accepts exactly those that start at or after zero, and a
    high-water mark that it accepts, rounded up, exactly when one of them is covered.
   */
  lemma ReachableStatesLoad(ids: seq<string>, tolerance: real, events: seq<Event>)
    requires Distinct(ids) && tolerance >= 0.0
    requires forall i :: 0 <= i < |events| ==> ValidEvent(events[i], ids)
    ensures var st := Run(ids, tolerance, events).memory;
            var file := FileOf(st, ids);
            && (forall m :: m in st.buckets ==> (Accepts(file.buckets, m, ids, tolerance) <==> m >= 0))
            && Loaded(file, ids, tolerance).buckets == FromZero(st.buckets)
            && (AnyCovered(st, ids) ==>
                st.highWater.Some?
                  && Loaded(file, ids, tolerance).highWater == Some(Ceiling(st.highWater.value) as real))
            && (!AnyCovered(st, ids) ==> Loaded(file, ids, tolerance).highWater.None?)
  {
    EveryRunIsOk(ids, tolerance, events);
    var st := Run(ids, tolerance, events).memory;
    AcceptsFlushed(st, ids, tolerance);
    FlushThenLoad(st, ids, tolerance);
    FlushedHighWater(st, ids);
  }

  lemma {:induction false} EveryRunIsAfterZero(ids: seq<string>, tolerance: real, events: seq<Event>)
    requires Distinct(ids) && tolerance >= 0.0
    requires forall i :: 0 <= i < |events| ==> ValidEvent(events[i], ids) && (events[i].Record? ==> events[i].at >= 0.0)
    ensures var s := Run(ids, tolerance, events);
            AfterZero(s.memory) && (s.saved.Some? ==> AfterZero(s.saved.value))
  {
    if events != [] {
      var before, e := events[..|events| - 1], events[|events| - 1];
      EveryRunIsAfterZero(ids, tolerance, before);
      EveryRunIsOk(ids, tolerance, before);
      var s := Run(ids, tolerance, before);
      match e
      case Record(snapshots, tokens, t) => RecordAfterZero(s.memory, ids, Readings(snapshots, ids), tokens, t);
      case Prune(_) =>
      case Flush(_) =>
      case Restart(now) => if s.saved.Some? { FlushThenLoad(s.saved.value, ids, tolerance); }
    }
  }

  /** On a clock that never goes below zero, no bucket at all is rejected. */
  lemma NothingRejected(ids: seq<string>, tolerance: real, events: seq<Event>)
    requires Distinct(ids) && tolerance >= 0.0
    requires forall i :: 0 <= i < |events| ==> ValidEvent(events[i], ids) && (events[i].Record? ==> events[i].at >= 0.0)
    ensures var st := Run(ids, tolerance, events).memory;
            && Loaded(FileOf(st, ids), ids, tolerance).buckets == st.buckets
            && (Loaded(FileOf(st, ids), ids, tolerance).dirty <==> st.highWater.Some? && !AnyCovered(st, ids))
  {
    hide Run, Inv, AllMade, LogOk, Loaded, FileOf, AnyCovered, Distinct;
    EveryRunIsOk(ids, tolerance, events);
    EveryRunIsAfterZero(ids, tolerance, events);
    var st := Run(ids, tolerance, events).memory;
    FlushThenLoad(st, ids, tolerance);
    assert FromZero(st.buckets) == st.buckets;
  }

  /**
    Over any run, no instant at or after zero is credited twice to the same node or to the fleet since the last
    restart that forgot its high-water mark, and no bucket holds more time than has passed in it before the mark.
   */
  lemma NoInstantTwice(ids: seq<string>, tolerance: real, events: seq<Event>, i: nat, j: nat, x: real)
    requires Distinct(ids) && tolerance >= 0.0
    requires forall i :: 0 <= i < |events| ==> ValidEvent(events[i], ids)
    requires i < j < |Run(ids, tolerance, events).log| && x >= 0.0
    requires Run(ids, tolerance, events).log[i].meter == Run(ids, tolerance, events).log[j].meter
    ensures !(Holds(Run(ids, tolerance, events).log[i], x) && Holds(Run(ids, tolerance, events).log[j], x))
    ensures var st := Run(ids, tolerance, events).memory;
            forall m, id :: m in st.buckets && m >= 0 && id in ids ==>
              Entry(st.buckets[m].nodeCoverageMs, id) <= ElapsedTo(m, st.highWater)
  {
    EveryRunIsOk(ids, tolerance, events);
    var log := Run(ids, tolerance, events).log;
    assert Before(log[i], log[j]);
    var st := Run(ids, tolerance, events).memory;
    forall m, id | m in st.buckets && m >= 0 && id in ids
      ensures Entry(st.buckets[m].nodeCoverageMs, id) <= ElapsedTo(m, st.highWater)
    {
      assert CoverageWithin(st.buckets[m], ids, ElapsedTo(m, st.highWater));
    }
  }

  // --- Restarts that forget -------------------------------------------------------------------

  /** No restart of the run finds a high-water mark without a covered bucket to back it. */
  ghost predicate Remembering(ids: seq<string>, tolerance: real, events: seq<Event>) {
    forall k :: 0 <= k < |events| && events[k].Restart? ==>
      var s := Run(ids, tolerance, events[..k]);
      s.saved.Some? ==> !Forgets(s.saved.value, ids)
  }

  lemma {:induction false} RememberedHistory(ids: seq<string>, tolerance: real, events: seq<Event>)
    requires Remembering(ids, tolerance, events)
    ensures var s := Run(ids, tolerance, events); s.history == s.log && s.savedHistory == s.savedLog
  {
    hide NewCredits, Recorded, Loaded, FileOf, Pruned, Forgets;
    if events != [] {
      var before, k := events[..|events| - 1], |events| - 1;
      assert Remembering(ids, tolerance, before) by {
        forall i | 0 <= i < k ensures before[..i] == events[..i] {
        }
      }
      RememberedHistory(ids, tolerance, before);
      assert events[..k] == before;
    }
  }

  /** While no restart forgets, no instant at or after zero is ever credited twice, restarts included. */
  lemma NoInstantTwiceEver(ids: seq<string>, tolerance: real, events: seq<Event>, i: nat, j: nat, x: real)
    requires Distinct(ids) && tolerance >= 0.0 && Remembering(ids, tolerance, events)
    requires forall i :: 0 <= i < |events| ==> ValidEvent(events[i], ids)
    requires i < j < |Run(ids, tolerance, events).history| && x >= 0.0
    requires Run(ids, tolerance, events).history[i].meter == Run(ids, tolerance, events).history[j].meter
    ensures !(Holds(Run(ids, tolerance, events).history[i], x) && Holds(Run(ids, tolerance, events).history[j], x))
  {
    hide Run, Holds, Remembering, Distinct;
    RememberedHistory(ids, tolerance, events);
    NoInstantTwice(ids, tolerance, events, i, j, x);
  }

  /** What any credit looks like, and that a positive high-water mark comes from one that ends after zero. */
  ghost predicate HistoryOk(history: seq<Credit>, ids: seq<string>, highWater: Option<real>) {
    && (forall c :: c in history ==> CreditFits(c, ids))
    && (highWater.Some? && highWater.value > 0.0 ==> exists c :: c in history && c.to > 0.0)
  }

  predicate CreditFits(c: Credit, ids: seq<string>) {
    && Tracks(ids, c.meter) && ids != []
    && c.from < c.to <= c.from + MAX_GAP_MS && c.to <= MAX_SAFE_INTEGER as real
  }

  lemma RecordKeepsHistory(st: State, ids: seq<string>, readings: map<string, real>, tokens: Option<TokenReading>,
                           t: real, history: seq<Credit>)
    requires CanRecord(st, ids, readings) && t <= MAX_SAFE_INTEGER as real && HistoryOk(history, ids, st.highWater)
    ensures HistoryOk(history + NewCredits(st, ids, readings, t), ids, Recorded(st, ids, readings, tokens, t).highWater)
  {
    hide CanRecord, Integrates, NewCredits, Recorded;
    var added := NewCredits(st, ids, readings, t);
    NewCreditsSized(st, ids, readings, t);
    if st.latestRecordAt == Some(t) {
      RepeatIsRefused(st, ids, readings, tokens, t);
      assert history + added == history;
    } else {
      HighWaterMoves(st, ids, readings, tokens, t);
      if Integrates(AfterRollback(st, t), ids, readings, t) && t > 0.0 {
        assert added[0] in added && added[0] in history + added;
      }
      if st.highWater.Some? && st.highWater.value > 0.0 {
        var c :| c in history && c.to > 0.0;
        assert c in history + added;
      }
    }
  }

  lemma RepeatIsRefused(st: State, ids: seq<string>, readings: map<string, real>, tokens: Option<TokenReading>, t: real)
    requires st.latestRecordAt == Some(t)
    ensures NewCredits(st, ids, readings, t) == [] && Recorded(st, ids, readings, tokens, t) == st
  {
  }

  lemma RestartKeepsHistory(st: State, ids: seq<string>, tolerance: real, now: real, history: seq<Credit>)
    requires Inv(st, ids) && tolerance >= 0.0 && HistoryOk(history, ids, st.highWater)
    ensures HistoryOk(history, ids, Pruned(Loaded(FileOf(st, ids), ids, tolerance), now).highWater)
  {
    hide Loaded, FileOf, Inv, AnyCovered;
    FlushThenLoad(st, ids, tolerance);
  }

  lemma {:induction false} EveryHistoryIsOk(ids: seq<string>, tolerance: real, events: seq<Event>)
    requires Distinct(ids) && tolerance >= 0.0
    requires forall i :: 0 <= i < |events| ==> ValidEvent(events[i], ids)
    ensures var s := Run(ids, tolerance, events);
            && HistoryOk(s.history, ids, s.memory.highWater)
            && (s.saved.Some? ==> HistoryOk(s.savedHistory, ids, s.saved.value.highWater))
  {
    if events != [] {
      hide HistoryOk, Inv, NewCredits, Recorded, Loaded, FileOf, Readings, Pruned;
      var before, e := events[..|events| - 1], events[|events| - 1];
      EveryHistoryIsOk(ids, tolerance, before);
      EveryRunIsOk(ids, tolerance, before);
      var s := Run(ids, tolerance, before);
      NoHistory(ids);
      match e
      case Record(snapshots, tokens, t) =>
        CanRecordWhenInv(s.memory, ids, snapshots);
        RecordKeepsHistory(s.memory, ids, Readings(snapshots, ids), tokens, t, s.history);
      case Prune(now) => PruneKeepsHighWater(s.memory, now);
      case Flush(now) => PruneKeepsHighWater(s.memory, now);
      case Restart(now) =>
        if s.saved.Some? { RestartKeepsHistory(s.saved.value, ids, tolerance, now, s.savedHistory); }
    }
  }

  lemma PruneKeepsHighWater(st: State, now: real)
    ensures Pruned(st, now).highWater == st.highWater
  {
  }

  lemma NoHistory(ids: seq<string>)
    ensures HistoryOk([], ids, FRESH.highWater)
  {
  }

  function IdleRecord(ids: seq<string>, t: real): Event {
    Record(SnapshotsOf(ids, AllIdle(ids)), None, t)
  }

  /** Two records of a fleet without a high-water mark credit every meter the time between them. */
  lemma TwoIdleRecords(st: State, ids: seq<string>, c: Credit)
    requires st.highWater.None? && st.latestRecordAt.None? && st.baselines == map[] && st.fleetBaseline.None?
    requires CreditFits(c, ids)
    ensures c in NewCredits(Recorded(st, ids, AllIdle(ids), None, c.from), ids, AllIdle(ids), c.to)
  {
    var readings := AllIdle(ids);
    var st' := Recorded(st, ids, readings, None, c.from);
    FirstIdleRecord(st, ids, c.from);
    assert AfterRollback(st', c.to) == st';
    forall id | id in ids
      ensures CreditOf(Node(id), NodeInterval(st', readings, c.to, id)) == [Credit(Node(id), c.from, c.to)]
    {
    }
    match c.meter
    case Node(id) => NodeCreditsHold(st', ids, readings, c.to, |ids|, c);
    case Fleet =>
      assert CreditOf(Fleet, FleetInterval(st', ids, readings, c.to)) == [c];
      assert c in CreditOf(Fleet, FleetInterval(st', ids, readings, c.to));
  }

  lemma FirstIdleRecord(st: State, ids: seq<string>, t: real)
    requires st.highWater.None? && st.latestRecordAt.None? && st.baselines == map[] && st.fleetBaseline.None?
    ensures var st' := Recorded(st, ids, AllIdle(ids), None, t);
            && st'.highWater.None? && st'.latestRecordAt == Some(t)
            && st'.baselines == (map id | id in ids :: Sample(t, MIN_NODE_WATTS))
            && (ids != [] ==> st'.fleetBaseline.Some? && st'.fleetBaseline.value.atMs == t)
  {
    hide CreditFleet, Total;
    var readings := AllIdle(ids);
    assert forall id :: NodeInterval(st, readings, t, id).None?;
    assert !Integrates(st, ids, readings, t);
    PruneKeepsHighWater(Counted(st, ids, readings, None, t), t);
  }

  lemma {:induction false} NodeCreditsHold(st: State, ids: seq<string>, readings: map<string, real>, t: real, k: nat,
                                           c: Credit)
    requires k <= |ids| && c.meter.Node? && c.meter.id in ids[..k]
    requires CreditOf(c.meter, NodeInterval(st, readings, t, c.meter.id)) == [c]
    ensures c in NodeCredits(st, ids, readings, t, k)
  {
    hide NodeInterval, CreditOf;
    if k > 0 {
      assert ids[..k] == ids[..k - 1] + [ids[k - 1]];
      if c.meter.id == ids[k - 1] {
        assert c in CreditOf(c.meter, NodeInterval(st, readings, t, c.meter.id));
      } else {
        NodeCreditsHold(st, ids, readings, t, k - 1, c);
      }
    }
  }

  /**
    The guard is needed: whenever a restart forgets, a clock that steps back to an interval credited before, and
    ending after zero, makes the restarted process credit it a second time.
   */
  lemma ForgettingCreditsTwice(ids: seq<string>, tolerance: real, events: seq<Event>, now: real)
    returns (c: Credit, more: seq<Event>)
    requires Distinct(ids) && tolerance >= 0.0
    requires forall i :: 0 <= i < |events| ==> ValidEvent(events[i], ids)
    requires var s := Run(ids, tolerance, events); s.saved.Some? && Forgets(s.saved.value, ids)
    ensures c.from < c.to && c.to > 0.0
    ensures forall i :: 0 <= i < |more| ==> ValidEvent(more[i], ids)
    ensures var history := Run(ids, tolerance, events + more).history;
            exists i, j :: 0 <= i < j < |history| && history[i] == c == history[j]
  {
    hide Run, Recorded, NewCredits, Loaded, FileOf, Pruned, Inv, AnyCovered;
    var s := Run(ids, tolerance, events);
    EveryRunIsOk(ids, tolerance, events);
    EveryHistoryIsOk(ids, tolerance, events);
    c :| c in s.savedHistory && c.to > 0.0;
    assert CreditFits(c, ids);
    var back, again := IdleRecord(ids, c.from), IdleRecord(ids, c.to);
    more := [Restart(now), back, again];
    ThreeMore(ids, tolerance, events, Restart(now), back, again);
    SnapshotsRead(ids, AllIdle(ids));
    FlushThenLoad(s.saved.value, ids, tolerance);
    var restarted := Step(s, ids, tolerance, Restart(now));
    PruneKeepsRest(Loaded(FileOf(s.saved.value, ids), ids, tolerance), now);
    TwoIdleRecords(restarted.memory, ids, c);
    var stepped := Step(restarted, ids, tolerance, back);
    var added := NewCredits(stepped.memory, ids, AllIdle(ids), c.to);
    SeenTwice(s.savedHistory, NewCredits(restarted.memory, ids, AllIdle(ids), c.from), added, c);
  }

  lemma SeenTwice(first: seq<Credit>, between: seq<Credit>, last: seq<Credit>, c: Credit)
    requires c in first && c in last
    ensures var history := first + between + last;
            exists i, j :: 0 <= i < j < |history| && history[i] == c == history[j]
  {
    var i :| 0 <= i < |first| && first[i] == c;
    var j :| 0 <= j < |last| && last[j] == c;
    var history := first + between + last;
    assert history[i] == c && history[|first + between| + j] == c;
  }

  lemma PruneKeepsRest(st: State, now: real)
    ensures var after := Pruned(st, now);
            && after.highWater == st.highWater && after.latestRecordAt == st.latestRecordAt
            && after.baselines == st.baselines && after.fleetBaseline == st.fleetBaseline
  {
  }

  lemma OneMore(ids: seq<string>, tolerance: real, events: seq<Event>, e: Event)
    ensures Run(ids, tolerance, events + [e]) == Step(Run(ids, tolerance, events), ids, tolerance, e)
  {
    assert (events + [e])[..|events|] == events;
  }

  lemma ThreeMore(ids: seq<string>, tolerance: real, events: seq<Event>, a: Event, b: Event, c: Event)
    ensures Run(ids, tolerance, events + [a, b, c])
         == Step(Step(Step(Run(ids, tolerance, events), ids, tolerance, a), ids, tolerance, b), ids, tolerance, c)
  {
    hide Run, Step;
    OneMore(ids, tolerance, events, a);
    OneMore(ids, tolerance, events + [a], b);
    OneMore(ids, tolerance, events + [a] + [b], c);
    assert events + [a, b, c] == events + [a] + [b] + [c];
  }

  /** Such a restart can come: one second of coverage, and a flush 32 days later, which prunes it but not the mark. */
  lemma ForgettingIsReachable(id: string, tolerance: real)
    ensures var events := [IdleRecord([id], 0.0), IdleRecord([id], 1000.0), Flush(32.0 * DAY_MS)];
            var s := Run([id], tolerance, events);
            s.saved.Some? && Forgets(s.saved.value, [id])
  {
    hide Run, Recorded, NewCredits, Total;
    var ids, flush := [id], Flush(32.0 * DAY_MS);
    ThreeMore(ids, tolerance, [], IdleRecord(ids, 0.0), IdleRecord(ids, 1000.0), flush);
    assert [] + [IdleRecord(ids, 0.0), IdleRecord(ids, 1000.0), flush]
           == [IdleRecord(ids, 0.0), IdleRecord(ids, 1000.0), flush];
    EmptyRun(ids, tolerance);
    SnapshotsRead(ids, AllIdle(ids));
    FirstIdleRecord(FRESH, ids, 0.0);
    var st1 := Recorded(FRESH, ids, AllIdle(ids), None, 0.0);
    SecondIdleRecord(st1, id);
    PrunedAway(Recorded(st1, ids, AllIdle(ids), None, 1000.0), ids);
  }

  lemma EmptyRun(ids: seq<string>, tolerance: real)
    ensures Run(ids, tolerance, []) == START
  {
  }

  lemma SecondIdleRecord(st: State, id: string)
    requires st == Recorded(FRESH, [id], AllIdle([id]), None, 0.0)
    requires st.highWater.None? && st.latestRecordAt == Some(0.0)
    requires st.baselines == map[id := Sample(0.0, MIN_NODE_WATTS)]
    ensures var st' := Recorded(st, [id], AllIdle([id]), None, 1000.0);
            && st'.highWater == Some(1000.0) && st'.dirty
            && forall m :: m in st'.buckets ==> m < 1000
  {
    hide CreditNodes, Total;
    FreshInv([id]);
    CanRecordIdle(FRESH, [id]);
    RecordKeepsInv(FRESH, [id], AllIdle([id]), None, 0.0);
    CreditFleetKeys(FRESH, [id], AllIdle([id]), 0.0);
    CreditFleetKeys(st, [id], AllIdle([id]), 1000.0);
    assert NodeInterval(st, AllIdle([id]), 1000.0, id).Some?;
    assert id in [id];
  }

  lemma FreshInv(ids: seq<string>)
    ensures Inv(FRESH, ids)
  {
    if ids != [] { assert ids[0] in ids; }
  }

  lemma CanRecordIdle(st: State, ids: seq<string>)
    requires Inv(st, ids) && Distinct(ids)
    ensures CanRecord(st, ids, AllIdle(ids))
  {
    hide Inv;
  }

  lemma PrunedAway(st: State, ids: seq<string>)
    requires forall m :: m in st.buckets ==> m < 1000
    ensures Pruned(st, 32.0 * DAY_MS).buckets == map[]
    ensures !AnyCovered(Pruned(st, 32.0 * DAY_MS), ids)
  {
    var cutoff := AlignedWindowCutoff(32.0 * DAY_MS, RETENTION_MS);
    assert cutoff as real > 60_000.0;
  }

  // --- The fleet's time -----------------------------------------------------------------------

  /**
    Over any run, an instant at or after zero is credited to the fleet exactly when it is credited to every
    node: what the fleet's counters cover is the time that all nodes are covered together.
   */
  lemma {:induction false} FleetTimeIsJointTime(ids: seq<string>, tolerance: real, events: seq<Event>, x: real)
    requires Distinct(ids) && tolerance >= 0.0 && x >= 0.0
    requires forall i :: 0 <= i < |events| ==> ValidEvent(events[i], ids)
    ensures JointAt(Run(ids, tolerance, events).log, ids, x) && JointAt(Run(ids, tolerance, events).savedLog, ids, x)
  {
    hide JointAt, Inv, LogOk, NewCredits, Recorded, Loaded, FileOf, Readings, Pruned, Forgets;
    NothingJoint(ids, x);
    if events != [] {
      var before, e := events[..|events| - 1], events[|events| - 1];
      FleetTimeIsJointTime(ids, tolerance, before, x);
      EveryRunIsOk(ids, tolerance, before);
      if e.Record? {
        var s := Run(ids, tolerance, before);
        CanRecordWhenInv(s.memory, ids, e.snapshots);
        RecordKeepsJoint(s.memory, ids, Readings(e.snapshots, ids), e.at, s.log, x);
      }
    }
  }

  lemma NothingJoint(ids: seq<string>, x: real)
    ensures JointAt([], ids, x)
  {
    if ids != [] {
      assert ids[0] in ids;
      assert !Covers([], Node(ids[0]), x);
    }
  }

  // --- Every reachable bucket -----------------------------------------------------------------

  /** The bounds of a bucket of any minute. */
  predicate WithinBounds(b: Bucket, ids: seq<string>) {
    && (forall id :: id in ids ==>
          && b.fleetCoverageMs <= Entry(b.nodeCoverageMs, id)
          && EnergyWithin(MIN_NODE_WATTS, MAX_NODE_WATTS, Entry(b.nodeCoverageMs, id),
                          Entry(b.nodeWh, id) * MS_PER_HOUR))
    && b.fleetWattMs <= MS_PER_HOUR * Total(ids, b.nodeWh)
    && EnergyWithin(MIN_NODE_WATTS, MAX_NODE_WATTS, PartialTime(b, ids), PartialEnergy(b, ids))
    && ((forall id :: id in ids ==> Entry(b.nodeCoverageMs, id) == b.fleetCoverageMs) ==>
          b.fleetWattMs == MS_PER_HOUR * Total(ids, b.nodeWh))
  }

  lemma OkBucketWithinBounds(b: Bucket, ids: seq<string>)
    requires BucketOk(b, ids) && FleetAccounted(b, ids)
    ensures WithinBounds(b, ids)
  {
    hide Total, EnergyWithin, PartialTime, PartialEnergy;
    forall id | id in ids ensures NodeOk(b, id) {
    }
    if forall id :: id in ids ==> Entry(b.nodeCoverageMs, id) == b.fleetCoverageMs {
      FullCoverageMeansEqualEnergy(b, ids);
    }
  }

  /**
    In every reachable bucket: the fleet is covered no longer than any node, its energy is no more than
    the nodes' together and equal to it when all coverage is full-fleet, and each node drew between
    28.2 W and 240 W for the time it was covered.
   */
  lemma ReachableBuckets(ids: seq<string>, tolerance: real, events: seq<Event>, m: int)
    requires Distinct(ids) && tolerance >= 0.0
    requires forall i :: 0 <= i < |events| ==> ValidEvent(events[i], ids)
    requires m in Run(ids, tolerance, events).memory.buckets
    ensures WithinBounds(Run(ids, tolerance, events).memory.buckets[m], ids)
  {
    var b := Run(ids, tolerance, events).memory.buckets[m];
    BucketsOfRuns(ids, tolerance, events, m);
    hide BucketOk, Splits, FleetAccounted, WithinBounds, Run, Apart, Distinct;
    var shares :| Splits(b, ids, shares);
    SplitIsAccounted(b, ids, shares);
    OkBucketWithinBounds(b, ids);
  }

  lemma BucketsOfRuns(ids: seq<string>, tolerance: real, events: seq<Event>, m: int)
    requires Distinct(ids) && tolerance >= 0.0
    requires forall i :: 0 <= i < |events| ==> ValidEvent(events[i], ids)
    requires m in Run(ids, tolerance, events).memory.buckets
    ensures var st := Run(ids, tolerance, events).memory;
            var b := st.buckets[m];
            && BucketOk(b, ids) && Made(b, ids) && m % MINUTE_MS == 0
            && (m >= 0 ==>
                CoverageWithin(b, ids, ElapsedTo(m, st.highWater)) && Apart(b, ids, ElapsedTo(m, st.highWater)))
  {
    hide Run, BucketOk, Made, Apart, CoverageWithin, ElapsedTo, Distinct, LogOk;
    EveryRunIsOk(ids, tolerance, events);
    hide HighWaterBacked, BaselinesOk, CounterOk;
  }

  /**
    With one node there is nothing to tell apart: the fleet's figures are the node's in every reachable bucket from
    zero on.
   */
  lemma ReachableFleetOfOne(id: string, tolerance: real, events: seq<Event>, m: int)
    requires tolerance >= 0.0 && forall i :: 0 <= i < |events| ==> ValidEvent(events[i], [id])
    requires m in Run([id], tolerance, events).memory.buckets && m >= 0
    ensures var b := Run([id], tolerance, events).memory.buckets[m];
            b.fleetCoverageMs == Entry(b.nodeCoverageMs, id) && b.fleetWattMs == Entry(b.nodeWh, id) * MS_PER_HOUR
  {
    BucketsOfRuns([id], tolerance, events, m);
    hide Run, BucketOk, Apart, CoverageWithin, ElapsedTo, Splittable;
    var st := Run([id], tolerance, events).memory;
    FleetOfOne(st.buckets[m], id, ElapsedTo(m, st.highWater));
  }

  // --- Outside the marks ----------------------------------------------------------------------

  /**
    Below zero, and beyond the largest safe integer, the high-water mark does not move, so a clock that repeats
    itself there is credited twice. This is why the theorems above speak of instants and clocks in between.
   */
  lemma UnmarkedCreditsTwice(id: string, watts: real, s: real, t: real)
    requires s < t && t - s <= MAX_GAP_MS && !ValidHighWater(t)
    ensures var readings := map[id := watts];
            var st1 := Recorded(FRESH, [id], readings, None, s);
            var st2 := Recorded(st1, [id], readings, None, t);
            var st3 := Recorded(st2, [id], readings, None, s);
            && Credit(Node(id), s, t) in NewCredits(st1, [id], readings, t)
            && Credit(Node(id), s, t) in NewCredits(st3, [id], readings, t)
  {
    var readings := map[id := watts];
    var st1 := Recorded(FRESH, [id], readings, None, s);
    var st2 := Recorded(st1, [id], readings, None, t);
    var st3 := Recorded(st2, [id], readings, None, s);
    FirstSample(FRESH, id, watts, s);
    Unmarked(st1, id, watts, t);
    FirstSample(st2, id, watts, s);
    OneCredit(st1, id, watts, s, t);
    OneCredit(st3, id, watts, s, t);
  }

  /** A sample that closes no interval, the first one or one on a clock that stepped back. */
  lemma FirstSample(st: State, id: string, watts: real, t: real)
    requires st.highWater.None?
    requires (st.latestRecordAt.None? && st.baselines == map[] && st.fleetBaseline.None?)
             || (st.latestRecordAt.Some? && t < st.latestRecordAt.value)
    ensures var st' := Recorded(st, [id], map[id := watts], None, t);
            st'.highWater.None? && st'.latestRecordAt == Some(t) && st'.baselines == map[id := Sample(t, watts)]
  {
    hide CreditFleet, Total;
  }

  lemma Unmarked(st: State, id: string, watts: real, t: real)
    requires !ValidHighWater(t) && st.highWater.None? && st.latestRecordAt != Some(t)
    ensures var st' := Recorded(st, [id], map[id := watts], None, t);
            st'.highWater.None? && st'.latestRecordAt == Some(t)
  {
    hide CreditFleet, Total;
  }

  lemma OneCredit(st: State, id: string, watts: real, s: real, t: real)
    requires s < t && t - s <= MAX_GAP_MS
    requires st.highWater.None? && st.latestRecordAt == Some(s) && st.baselines == map[id := Sample(s, watts)]
    ensures Credit(Node(id), s, t) in NewCredits(st, [id], map[id := watts], t)
  {
    var readings := map[id := watts];
    assert NodeInterval(st, readings, t, id) == Some(Ramp(Sample(s, watts), Sample(t, watts)));
    assert NodeCredits(st, [id], readings, t, 1) == [Credit(Node(id), s, t)];
    assert Credit(Node(id), s, t) in NodeCredits(st, [id], readings, t, 1);
  }
}
