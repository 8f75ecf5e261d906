/**
 * The SDK's data-transfer records: one device's snapshot of metric readings
 * and the payload that bundles snapshots for one upload.
 */
module DtoModels {
  import opened Wrappers

  /** A metric reading (an int or a float in the source); nothing here computes with it. */
  type MetricValue(==)

  /** A point in time, as an integer count (a timezone-aware datetime in the source). */
  type Timestamp = int

  /** The contents of a snapshot at one moment. */
  datatype SnapshotValue = SnapshotValue(deviceName: string, metrics: map<string, MetricValue>, timestamp: Timestamp)

  /** The `ValueError` raised when two devices' snapshots are merged. */
  datatype MergeError = DifferentDevices

  function Max(a: Timestamp, b: Timestamp): (r: Timestamp)
    ensures r >= a && r >= b && (r == a || r == b)
  {
    if b > a then b else a
  }

  /**
   * What `merge` makes of `target` when given `incoming`: the incoming
   * readings overwrite, the target's other readings stay, and the timestamp
   * becomes the later of the two. Different device names are an error.
   */
  function MergeValues(target: SnapshotValue, incoming: SnapshotValue): (r: Result<SnapshotValue, MergeError>)
    ensures r.Failure? <==> target.deviceName != incoming.deviceName
    ensures r.Success? ==> r.value.deviceName == target.deviceName
    ensures r.Success? ==> r.value.metrics.Keys == target.metrics.Keys + incoming.metrics.Keys
    ensures r.Success? ==> forall k :: k in incoming.metrics ==> r.value.metrics[k] == incoming.metrics[k]
    ensures r.Success? ==> forall k :: k in target.metrics && k !in incoming.metrics ==> r.value.metrics[k] == target.metrics[k]
    ensures r.Success? ==> r.value.timestamp >= target.timestamp && r.value.timestamp >= incoming.timestamp
    ensures r.Success? ==> r.value.timestamp == target.timestamp || r.value.timestamp == incoming.timestamp
  {
    if target.deviceName != incoming.deviceName then Failure(DifferentDevices)
    else Success(SnapshotValue(target.deviceName, target.metrics + incoming.metrics, Max(target.timestamp, incoming.timestamp)))
  }

  /** Merging a snapshot with an identical copy of itself changes nothing. */
  lemma MergeIdempotent(s: SnapshotValue)
    ensures MergeValues(s, s) == Success(s)
  {
    assert s.metrics + s.metrics == s.metrics;
  }

  /** Merging never moves the timestamp backwards. */
  lemma MergeTimestampMonotone(target: SnapshotValue, incoming: SnapshotValue)
    requires target.deviceName == incoming.deviceName
    ensures MergeValues(target, incoming).value.timestamp >= target.timestamp
  {
  }

  /** Snapshots `first`, `rest[0]`, `rest[1]`, ... merged one after the other into `first`. */
  function MergeAll(first: SnapshotValue, rest: seq<SnapshotValue>): Result<SnapshotValue, MergeError>
    decreases |rest|
  {
    if rest == [] then Success(first)
    else
      match MergeValues(first, rest[0])
      case Failure(e) => Failure(e)
      case Success(s) => MergeAll(s, rest[1..])
  }

  predicate SameDevice(name: string, ss: seq<SnapshotValue>) {
    forall i :: 0 <= i < |ss| ==> ss[i].deviceName == name
  }

  /** Whether some snapshot of `ss` at index `i` or later reads metric `k`. */
  predicate ReadLater(ss: seq<SnapshotValue>, i: nat, k: string) {
    exists j :: i <= j < |ss| && k in ss[j].metrics
  }

  lemma ReadLaterStep(ss: seq<SnapshotValue>, i: nat, k: string)
    requires i < |ss|
    ensures ReadLater(ss, i, k) <==> k in ss[i].metrics || ReadLater(ss, i + 1, k)
  {
    if ReadLater(ss, i, k) {
      var j :| i <= j < |ss| && k in ss[j].metrics;
      if j > i { assert ReadLater(ss, i + 1, k); }
    }
  }

  lemma ReadLaterTail(ss: seq<SnapshotValue>, i: nat, k: string)
    requires 0 < |ss|
    ensures ReadLater(ss, i + 1, k) <==> ReadLater(ss[1..], i, k)
  {
    if ReadLater(ss, i + 1, k) {
      var j :| i + 1 <= j < |ss| && k in ss[j].metrics;
      assert k in ss[1..][j - 1].metrics;
    }
    if ReadLater(ss[1..], i, k) {
      var j :| i <= j < |ss[1..]| && k in ss[1..][j].metrics;
      assert k in ss[j + 1].metrics;
    }
  }

  /**
   * Merging a series of snapshots of one device gives, for each metric, the
   * reading of the last snapshot that has it, and the largest timestamp of
   * the series.
   */
  lemma {:induction false} MergeAllLastWriteWins(first: SnapshotValue, rest: seq<SnapshotValue>)
    requires SameDevice(first.deviceName, rest)
    ensures MergeAll(first, rest).Success?
    ensures var r := MergeAll(first, rest).value;
      && r.deviceName == first.deviceName
      && (forall k :: k in r.metrics <==> k in first.metrics || ReadLater(rest, 0, k))
      && (forall i, k :: 0 <= i < |rest| && k in rest[i].metrics && !ReadLater(rest, i + 1, k) ==>
            r.metrics[k] == rest[i].metrics[k])
      && (forall k :: k in first.metrics && !ReadLater(rest, 0, k) ==> r.metrics[k] == first.metrics[k])
      && r.timestamp >= first.timestamp
      && (forall i :: 0 <= i < |rest| ==> r.timestamp >= rest[i].timestamp)
      && (r.timestamp == first.timestamp || exists i :: 0 <= i < |rest| && r.timestamp == rest[i].timestamp)
    decreases |rest|
  {
    if rest != [] {
      var s := MergeValues(first, rest[0]).value;
      var tail := rest[1..];
      assert SameDevice(s.deviceName, tail);
      MergeAllLastWriteWins(s, tail);
      var r := MergeAll(s, tail).value;
      assert MergeAll(first, rest) == MergeAll(s, tail);
      forall k ensures ReadLater(rest, 0, k) <==> k in rest[0].metrics || ReadLater(tail, 0, k) {
        ReadLaterStep(rest, 0, k);
        ReadLaterTail(rest, 0, k);
      }
      forall i, k | 0 <= i < |rest| && k in rest[i].metrics && !ReadLater(rest, i + 1, k)
        ensures r.metrics[k] == rest[i].metrics[k]
      {
        ReadLaterTail(rest, i, k);
        if i > 0 {
          assert k in tail[i - 1].metrics;
          ReadLaterTail(rest, i - 1, k);
          ReadLaterStep(tail, i - 1, k);
        }
      }
      forall i | 0 <= i < |rest| ensures r.timestamp >= rest[i].timestamp {
        if i > 0 { assert rest[i] == tail[i - 1]; }
      }
      if r.timestamp != first.timestamp {
        if r.timestamp == s.timestamp {
          assert r.timestamp == rest[0].timestamp;
        } else {
          var i :| 0 <= i < |tail| && r.timestamp == tail[i].timestamp;
          assert r.timestamp == rest[i + 1].timestamp;
        }
      }
    }
  }

  /**
   * A device's snapshot. `merge` updates the metrics and the timestamp in
   * place; the device name is never reassigned.
   */
  class DeviceSnapshot {
    const deviceName: string
    var metrics: map<string, MetricValue>
    var timestamp: Timestamp

    constructor (deviceName: string, metrics: map<string, MetricValue>, timestamp: Timestamp)
      ensures View() == SnapshotValue(deviceName, metrics, timestamp)
    {
      this.deviceName := deviceName;
      this.metrics := metrics;
      this.timestamp := timestamp;
    }

    function View(): SnapshotValue
      reads this
    {
      SnapshotValue(deviceName, metrics, timestamp)
    }

    /**
     * `self.merge(other)`. On different device names nothing changes and the
     * error is returned; otherwise this snapshot becomes the merge. When
     * `other` is this same object, the merge is with the old contents.
     */
    method Merge(other: DeviceSnapshot) returns (outcome: Option<MergeError>)
      modifies this
      ensures outcome.Some? <==> deviceName != other.deviceName
      ensures outcome.Some? ==> View() == old(View())
      ensures outcome.None? ==> View() == MergeValues(old(View()), old(other.View())).value
    {
      if deviceName != other.deviceName {
        return Some(DifferentDevices);
      }
      metrics := metrics + other.metrics;
      if other.timestamp > timestamp {
        timestamp := other.timestamp;
      }
      outcome := None;
    }
  }

  /** The payload of one upload: the aggregator's identity and the snapshots it carries. */
  datatype AggregatorData = AggregatorData(guid: string, name: string, deviceSnapshots: seq<DeviceSnapshot>)

  /** `AggregatorData(guid, name)`: the snapshot list defaults to empty. */
  function NewAggregatorData(guid: string, name: string): (d: AggregatorData)
    ensures d.guid == guid && d.name == name && d.deviceSnapshots == []
  {
    AggregatorData(guid, name, [])
  }
}
