/**
  Estimates of a node's draw from its telemetry (server/energy/FleetEnergyTracker.js:198-212): how they move with the
  readings, and that every draw within the hardware's limits is the estimate of some telemetry.
 */
module EnergyTelemetry {
  import opened Options
  import opened EnergyArithmetic
  import opened EnergyState
  import opened RealArithmetic

  // --- How the estimate moves -------------------------------------------------------------------

  /** Fresh telemetry of a GPU that draws `gpu` watts and a CPU that is busy for `cpu` percent. */
  function Fresh(id: string, gpu: real, cpu: real): Snapshot {
    Snapshot(id, true, Some(gpu), Some(cpu))
  }

  /**
    From any estimate below 240 W, one GPU watt more raises it by one watt and one CPU percent more by 0.598 W, until
    240 W are reached.
   */
  lemma EstimateMoves(id: string, gpu: real, cpu: real, gpu': real, cpu': real)
    requires gpu >= 0.0 && gpu' >= 0.0 && 0.0 <= cpu <= 100.0 && 0.0 <= cpu' <= 100.0
    ensures EstimateNodeWatts(Fresh(id, 0.0, 0.0)) == Some(28.2)
    ensures EstimateNodeWatts(Fresh(id, gpu, cpu)).Some? && EstimateNodeWatts(Fresh(id, gpu', cpu')).Some?
    ensures var watts := EstimateNodeWatts(Fresh(id, gpu, cpu)).value;
            watts < 240.0 ==> EstimateNodeWatts(Fresh(id, gpu', cpu')).value
                              == Min(240.0, watts + (gpu' - gpu) + 0.598 * (cpu' - cpu))
  {
  }

  /** A CPU reading outside [0, 100] counts as the nearer end. */
  lemma UsageIsClamped(id: string, gpu: real, cpu: real)
    requires gpu >= 0.0
    ensures cpu <= 0.0 ==> EstimateNodeWatts(Fresh(id, gpu, cpu)) == EstimateNodeWatts(Fresh(id, gpu, 0.0))
    ensures cpu >= 100.0 ==> EstimateNodeWatts(Fresh(id, gpu, cpu)) == EstimateNodeWatts(Fresh(id, gpu, 100.0))
  {
  }

  // --- Batches that read as wanted ----------------------------------------------------------------

  /** All nodes at their least draw. */
  function AllIdle(ids: seq<string>): map<string, real> {
    map id | id in ids :: MIN_NODE_WATTS
  }

  /** An idle processor and a GPU that makes up the rest. */
  function SnapshotOf(id: string, watts: real): Snapshot {
    Snapshot(id, true, Some(watts - MIN_NODE_WATTS), Some(0.0))
  }

  /** One snapshot of each node that the table names. */
  function SnapshotsOf(ids: seq<string>, watts: map<string, real>): seq<Snapshot> {
    if ids == [] then []
    else
      var rest, id := SnapshotsOf(ids[..|ids| - 1], watts), ids[|ids| - 1];
      if id in watts then rest + [SnapshotOf(id, watts[id])] else rest
  }

  lemma SnapshotReads(id: string, watts: real)
    requires MIN_NODE_WATTS <= watts <= MAX_NODE_WATTS
    ensures EstimateNodeWatts(SnapshotOf(id, watts)) == Some(watts)
  {
  }

  lemma {:induction false} LastOfSnapshots(ids: seq<string>, watts: map<string, real>, id: string)
    ensures LastSnapshot(SnapshotsOf(ids, watts), id)
         == if id in ids && id in watts then Some(SnapshotOf(id, watts[id])) else None
  {
    if ids != [] {
      var rest, last := ids[..|ids| - 1], ids[|ids| - 1];
      LastOfSnapshots(rest, watts, id);
      assert ids == rest + [last];
      if last in watts {
        var before := SnapshotsOf(rest, watts);
        assert (before + [SnapshotOf(last, watts[last])])[..|before|] == before;
      }
    }
  }

  /** Any table of admissible draws is what some batch of snapshots reads as. */
  lemma SnapshotsRead(ids: seq<string>, watts: map<string, real>)
    requires ValidReadings(watts, ids)
    ensures Readings(SnapshotsOf(ids, watts), ids) == watts
  {
    var snapshots := SnapshotsOf(ids, watts);
    forall id | id in ids
      ensures Reading(snapshots, id) == if id in watts then Some(watts[id]) else None
    {
      LastOfSnapshots(ids, watts, id);
      if id in watts { SnapshotReads(id, watts[id]); }
    }
    assert Readings(snapshots, ids).Keys == watts.Keys;
  }
}
