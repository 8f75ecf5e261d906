/**
 * The search helpers on the server's ORM records: a device by name among an
 * aggregator's devices, a device's latest snapshot, and a snapshot's value
 * for a named metric. Each relationship is the list of related records, in
 * the order the ORM loads them.
 */
module OrmHelpers {
  import opened Wrappers
  import opened DateTimes

  datatype DeviceRecord = DeviceRecord(deviceId: int, name: string)

  datatype SnapshotRecord = SnapshotRecord(snapshotId: int, snapshotTime: PyDateTime)

  datatype MetricDefinition = MetricDefinition(metricDefId: int, metricName: string)

  /** A metric value row; its `metric_def` relationship may be unset. */
  datatype MetricValueRecord = MetricValueRecord(valueId: int, metricDef: Option<MetricDefinition>, value: real)

  /**
   * `get_device_by_name`: the first device called `name`, or `None` when
   * there is none.
   */
  function GetDeviceByName(devices: seq<DeviceRecord>, name: string): (r: Option<DeviceRecord>)
    ensures r.None? <==> forall i :: 0 <= i < |devices| ==> devices[i].name != name
    ensures r.Some? ==> exists i :: 0 <= i < |devices| && devices[i] == r.value && r.value.name == name
                                   && forall j :: 0 <= j < i ==> devices[j].name != name
  {
    if devices == [] then None
    else if devices[0].name == name then Some(devices[0])
    else
      var r := GetDeviceByName(devices[1..], name);
      if r.Some? then
        var i :| 0 <= i < |devices[1..]| && devices[1..][i] == r.value && r.value.name == name
                 && forall j :: 0 <= j < i ==> devices[1..][j].name != name;
        assert devices[i + 1] == r.value;
        r
      else r
  }

  /**
   * The position `max(snapshots, key=snapshot_time)` picks: no later snapshot
   * exists, and every earlier one is strictly older, since `max` replaces its
   * candidate only on a strictly greater key.
   */
  function LatestIndex(snapshots: seq<SnapshotRecord>): (i: nat)
    requires snapshots != []
    ensures i < |snapshots|
    ensures forall j :: 0 <= j < |snapshots| ==> !Before(snapshots[i].snapshotTime, snapshots[j].snapshotTime)
    ensures forall j :: 0 <= j < i ==> Before(snapshots[j].snapshotTime, snapshots[i].snapshotTime)
  {
    if |snapshots| == 1 then 0
    else
      var front := snapshots[..|snapshots| - 1];
      var last := |snapshots| - 1;
      var m := LatestIndex(front);
      assert forall j :: 0 <= j < |front| ==> front[j] == snapshots[j];
      if Before(snapshots[m].snapshotTime, snapshots[last].snapshotTime) then
        forall j | 0 <= j < |snapshots|
          ensures !Before(snapshots[last].snapshotTime, snapshots[j].snapshotTime)
          ensures j < last ==> Before(snapshots[j].snapshotTime, snapshots[last].snapshotTime)
        {
          BeforeIsStrictTotalOrder(snapshots[j].snapshotTime, snapshots[m].snapshotTime, snapshots[last].snapshotTime);
          BeforeIsStrictTotalOrder(snapshots[last].snapshotTime, snapshots[j].snapshotTime, snapshots[m].snapshotTime);
        }
        last
      else
        m
  }

  /**
   * `get_latest_snapshot`: `None` for a device without snapshots, otherwise
   * one of its snapshots that no other snapshot is later than, the first such.
   */
  function GetLatestSnapshot(snapshots: seq<SnapshotRecord>): (r: Option<SnapshotRecord>)
    ensures r.None? <==> snapshots == []
    ensures r.Some? ==> r.value in snapshots
    ensures r.Some? ==> forall s :: s in snapshots ==> !Before(r.value.snapshotTime, s.snapshotTime)
    ensures r.Some? ==> r.value == snapshots[LatestIndex(snapshots)]
  {
    if snapshots == [] then None else Some(snapshots[LatestIndex(snapshots)])
  }

  /** Whether a metric value row belongs to a definition called `name`. */
  predicate Named(mv: MetricValueRecord, name: string) {
    mv.metricDef.Some? && mv.metricDef.value.metricName == name
  }

  /**
   * `get_metric_value`: scans the snapshot's values in order and returns the
   * first whose definition is set and called `name`, or `None`.
   */
  method GetMetricValue(values: seq<MetricValueRecord>, name: string) returns (r: Option<MetricValueRecord>)
    ensures r.None? <==> forall i :: 0 <= i < |values| ==> !Named(values[i], name)
    ensures r.Some? ==> exists i :: 0 <= i < |values| && values[i] == r.value && Named(r.value, name)
                                   && forall j :: 0 <= j < i ==> !Named(values[j], name)
  {
    for i := 0 to |values|
      invariant forall j :: 0 <= j < i ==> !Named(values[j], name)
    {
      if Named(values[i], name) {
        return Some(values[i]);
      }
    }
    return None;
  }
}
