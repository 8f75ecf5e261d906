/**
 * The server's `/api/overview` endpoint after the database call: the rows the
 * database function returns are filtered by aggregator and device name, then
 * grouped aggregator -> device -> metric, each level in first-appearance
 * order, each device carrying the latest snapshot time among its rows.
 */
module Overview {
  import opened Wrappers
  import opened DateTimes
  import opened OrderedDicts
  import opened TimestampFormat

  /** One row of the `get_overview` database function. */
  datatype Row = Row(
    aggregatorId: int, aggregatorName: string,
    deviceId: int, deviceName: string,
    snapshotTime: Option<PyDateTime>,
    metricDefId: int, metricName: string, metricValue: real, displayType: string)

  /** The value of the `aggregator` and `device` query parameters that disables that filter. */
  const All := "all"

  /** The filter applied to each row. */
  predicate Keep(r: Row, aggregator: string, device: string) {
    (aggregator == All || r.aggregatorName == aggregator) && (device == All || r.deviceName == device)
  }

  /** The rows that pass the filter, in row order. */
  function Filter(rows: seq<Row>, aggregator: string, device: string): (kept: seq<Row>)
    ensures forall r :: r in kept <==> r in rows && Keep(r, aggregator, device)
    ensures |kept| <= |rows|
  {
    if rows == [] then []
    else
      var front, last := rows[..|rows| - 1], rows[|rows| - 1];
      assert rows == front + [last];
      Filter(front, aggregator, device) + (if Keep(last, aggregator, device) then [last] else [])
  }

  /** A single row is kept exactly when it passes the filter. */
  lemma FilterOne(r: Row, aggregator: string, device: string)
    ensures Filter([r], aggregator, device) == if Keep(r, aggregator, device) then [r] else []
  {
    assert [r][..0] == [];
  }

  /**
   * Filtering a concatenation filters each part: with `FilterOne` and
   * `Filter([]) == []` this fixes the kept rows, each once and in row order.
   */
  lemma {:induction false} FilterAppend(a: seq<Row>, b: seq<Row>, aggregator: string, device: string)
    ensures Filter(a + b, aggregator, device) == Filter(a, aggregator, device) + Filter(b, aggregator, device)
    decreases |b|
  {
    if b == [] {
      assert a + b == a;
    } else {
      var b', x := b[..|b| - 1], b[|b| - 1];
      assert (a + b)[..|a + b| - 1] == a + b' && (a + b)[|a + b| - 1] == x;
      FilterAppend(a, b', aggregator, device);
    }
  }

  /** `{"time": ..., "value": ...}`: a point of a metric's series. */
  datatype Point = Point(time: Option<PyDateTime>, value: real)

  /** `{"metricName", "displayType", "data"}` */
  datatype MetricInfo = MetricInfo(metricName: string, displayType: string, data: seq<Point>)

  /** `{"deviceId", "deviceName", "lastUpdated", "metrics"}`, metrics keyed by metric definition id. */
  datatype DeviceInfo = DeviceInfo(deviceId: int, deviceName: string, lastUpdated: Option<PyDateTime>, metrics: Dict<int, MetricInfo>)

  /** `{"aggregatorId", "aggregatorName", "devices"}`, devices keyed by device id. */
  datatype AggInfo = AggInfo(aggregatorId: int, aggregatorName: string, devices: Dict<int, DeviceInfo>)

  type AggMap = Dict<int, AggInfo>

  /** Every dict of the nested maps is well formed. */
  ghost predicate MapValid(m: AggMap) {
    && OrderedDicts.Valid(m)
    && forall a :: a in m.entries ==>
         && OrderedDicts.Valid(m.entries[a].devices)
         && forall d :: d in m.entries[a].devices.entries ==> OrderedDicts.Valid(m.entries[a].devices.entries[d].metrics)
  }

  /** The `lastUpdated` update: a row's non-null time replaces a null or an earlier one. */
  function Later(last: Option<PyDateTime>, t: Option<PyDateTime>): (r: Option<PyDateTime>)
    ensures r == last || r == t
    ensures r.None? <==> last.None? && t.None?
  {
    if t.None? then last
    else if last.None? || Before(last.value, t.value) then t
    else last
  }

  /** A row's metric: created on first sight with the row's name and display type, then its point appended. */
  function AddToMetrics(ms: Dict<int, MetricInfo>, r: Row): (ms': Dict<int, MetricInfo>)
    requires OrderedDicts.Valid(ms)
    ensures OrderedDicts.Valid(ms')
  {
    var mi := if r.metricDefId in ms.entries then ms.entries[r.metricDefId] else MetricInfo(r.metricName, r.displayType, []);
    Put(ms, r.metricDefId, MetricInfo(mi.metricName, mi.displayType, mi.data + [Point(r.snapshotTime, r.metricValue)]))
  }

  /** A row's device: created on first sight with no `lastUpdated`, then updated with the row. */
  function AddToDevices(ds: Dict<int, DeviceInfo>, r: Row): (ds': Dict<int, DeviceInfo>)
    requires OrderedDicts.Valid(ds)
    requires forall d :: d in ds.entries ==> OrderedDicts.Valid(ds.entries[d].metrics)
    ensures OrderedDicts.Valid(ds')
    ensures forall d :: d in ds'.entries ==> OrderedDicts.Valid(ds'.entries[d].metrics)
  {
    var di := if r.deviceId in ds.entries then ds.entries[r.deviceId] else DeviceInfo(r.deviceId, r.deviceName, None, Empty());
    Put(ds, r.deviceId, DeviceInfo(di.deviceId, di.deviceName, Later(di.lastUpdated, r.snapshotTime), AddToMetrics(di.metrics, r)))
  }

  /** The body of the grouping loop for one row. */
  function AddRow(m: AggMap, r: Row): (m': AggMap)
    requires MapValid(m)
    ensures MapValid(m')
  {
    var ai := if r.aggregatorId in m.entries then m.entries[r.aggregatorId] else AggInfo(r.aggregatorId, r.aggregatorName, Empty());
    Put(m, r.aggregatorId, AggInfo(ai.aggregatorId, ai.aggregatorName, AddToDevices(ai.devices, r)))
  }

  /** `aggregator_map` after the grouping loop over `rows`. */
  function Group(rows: seq<Row>): (m: AggMap)
    ensures MapValid(m)
  {
    if rows == [] then Empty() else AddRow(Group(rows[..|rows| - 1]), rows[|rows| - 1])
  }

  // Reference definitions, each written over the kept rows directly.

  /** `xs` without repetitions, each value at the place it first appears. */
  function DistinctFirst(xs: seq<int>): (r: seq<int>)
    ensures forall x :: x in r <==> x in xs
    ensures NoDuplicates(r)
  {
    if xs == [] then []
    else
      var rest := DistinctFirst(xs[..|xs| - 1]);
      assert xs == xs[..|xs| - 1] + [xs[|xs| - 1]];
      if xs[|xs| - 1] in rest then rest else rest + [xs[|xs| - 1]]
  }

  function AggIds(rows: seq<Row>): (ids: seq<int>)
    ensures |ids| == |rows|
    ensures forall i :: 0 <= i < |rows| ==> ids[i] == rows[i].aggregatorId
  {
    if rows == [] then [] else AggIds(rows[..|rows| - 1]) + [rows[|rows| - 1].aggregatorId]
  }

  function DeviceIds(rows: seq<Row>): (ids: seq<int>)
    ensures |ids| == |rows|
    ensures forall i :: 0 <= i < |rows| ==> ids[i] == rows[i].deviceId
  {
    if rows == [] then [] else DeviceIds(rows[..|rows| - 1]) + [rows[|rows| - 1].deviceId]
  }

  function MetricIds(rows: seq<Row>): (ids: seq<int>)
    ensures |ids| == |rows|
    ensures forall i :: 0 <= i < |rows| ==> ids[i] == rows[i].metricDefId
  {
    if rows == [] then [] else MetricIds(rows[..|rows| - 1]) + [rows[|rows| - 1].metricDefId]
  }

  /** The rows of aggregator `a`, in row order. */
  function RowsOfAgg(rows: seq<Row>, a: int): (rs: seq<Row>)
    ensures forall r :: r in rs <==> r in rows && r.aggregatorId == a
  {
    if rows == [] then []
    else
      var last := rows[|rows| - 1];
      assert rows == rows[..|rows| - 1] + [last];
      RowsOfAgg(rows[..|rows| - 1], a) + (if last.aggregatorId == a then [last] else [])
  }

  /** The rows of device `d`, in row order. */
  function ByDevice(rows: seq<Row>, d: int): (rs: seq<Row>)
    ensures forall r :: r in rs <==> r in rows && r.deviceId == d
  {
    if rows == [] then []
    else
      var last := rows[|rows| - 1];
      assert rows == rows[..|rows| - 1] + [last];
      ByDevice(rows[..|rows| - 1], d) + (if last.deviceId == d then [last] else [])
  }

  /** The rows of metric `m`, in row order. */
  function ByMetric(rows: seq<Row>, m: int): (rs: seq<Row>)
    ensures forall r :: r in rs <==> r in rows && r.metricDefId == m
  {
    if rows == [] then []
    else
      var last := rows[|rows| - 1];
      assert rows == rows[..|rows| - 1] + [last];
      ByMetric(rows[..|rows| - 1], m) + (if last.metricDefId == m then [last] else [])
  }

  /** One point per row, in row order. */
  function Points(rows: seq<Row>): (ps: seq<Point>)
    ensures |ps| == |rows|
    ensures forall i :: 0 <= i < |rows| ==> ps[i] == Point(rows[i].snapshotTime, rows[i].metricValue)
  {
    if rows == [] then [] else Points(rows[..|rows| - 1]) + [Point(rows[|rows| - 1].snapshotTime, rows[|rows| - 1].metricValue)]
  }

  /** The latest non-null snapshot time among `rows`, or `None` when every one is null. */
  function LatestTime(rows: seq<Row>): Option<PyDateTime> {
    if rows == [] then None else Later(LatestTime(rows[..|rows| - 1]), rows[|rows| - 1].snapshotTime)
  }

  /**
   * `LatestTime` is what its name says: `None` exactly when no row has a time,
   * otherwise one of the rows' times that no row's time is after.
   */
  lemma {:induction false} LatestTimeIsMax(rows: seq<Row>)
    ensures LatestTime(rows).None? <==> forall i :: 0 <= i < |rows| ==> rows[i].snapshotTime.None?
    ensures LatestTime(rows).Some? ==> exists i :: 0 <= i < |rows| && rows[i].snapshotTime == LatestTime(rows)
    ensures LatestTime(rows).Some? ==>
      forall i :: 0 <= i < |rows| && rows[i].snapshotTime.Some? ==> !Before(LatestTime(rows).value, rows[i].snapshotTime.value)
  {
    if rows != [] {
      var front, last := rows[..|rows| - 1], rows[|rows| - 1];
      LatestTimeIsMax(front);
      assert forall i :: 0 <= i < |front| ==> front[i] == rows[i];
      var t := LatestTime(rows);
      if t.Some? {
        forall i | 0 <= i < |rows| && rows[i].snapshotTime.Some?
          ensures !Before(t.value, rows[i].snapshotTime.value)
        {
          if i < |front| && LatestTime(front).Some? {
            BeforeIsStrictTotalOrder(t.value, LatestTime(front).value, rows[i].snapshotTime.value);
            BeforeIsStrictTotalOrder(LatestTime(front).value, t.value, rows[i].snapshotTime.value);
          }
        }
        if t == last.snapshotTime {
          assert rows[|rows| - 1].snapshotTime == t;
        } else {
          var i :| 0 <= i < |front| && front[i].snapshotTime == LatestTime(front);
          assert rows[i].snapshotTime == t;
        }
      }
    }
  }

  // What the grouping builds, level by level.

  /** The aggregator entry a row lands in, and what happens to the others. */
  lemma AddRowAt(m: AggMap, r: Row, a: int)
    requires MapValid(m)
    ensures a in AddRow(m, r).entries <==> a in m.entries || a == r.aggregatorId
    ensures a != r.aggregatorId && a in m.entries ==> AddRow(m, r).entries[a] == m.entries[a]
    ensures a == r.aggregatorId && a in m.entries ==>
      AddRow(m, r).entries[a] == AggInfo(m.entries[a].aggregatorId, m.entries[a].aggregatorName, AddToDevices(m.entries[a].devices, r))
    ensures a == r.aggregatorId && a !in m.entries ==>
      AddRow(m, r).entries[a] == AggInfo(a, r.aggregatorName, AddToDevices(Empty(), r))
  {
  }

  /**
   * Each aggregator id appears once, in the order of its first row, and its
   * entry carries that id and the name from its first row.
   */
  lemma {:induction false} GroupAggregators(rows: seq<Row>)
    ensures Group(rows).keys == DistinctFirst(AggIds(rows))
    ensures forall a :: a in Group(rows).entries ==>
      && RowsOfAgg(rows, a) != []
      && Group(rows).entries[a].aggregatorId == a
      && Group(rows).entries[a].aggregatorName == RowsOfAgg(rows, a)[0].aggregatorName
  {
    if rows != [] {
      var front, r := rows[..|rows| - 1], rows[|rows| - 1];
      GroupAggregators(front);
      var m := Group(front);
      assert AggIds(rows) == AggIds(front) + [r.aggregatorId];
      forall a | a in Group(rows).entries
        ensures RowsOfAgg(rows, a) != []
        ensures Group(rows).entries[a].aggregatorId == a
        ensures Group(rows).entries[a].aggregatorName == RowsOfAgg(rows, a)[0].aggregatorName
      {
        AddRowAt(m, r, a);
        if a !in m.entries {
          assert a !in AggIds(front);
          NoRowsOfAgg(front, a);
        }
      }
    }
  }

  lemma {:induction false} NoRowsOfAgg(rows: seq<Row>, a: int)
    requires a !in AggIds(rows)
    ensures RowsOfAgg(rows, a) == []
  {
    if rows != [] {
      var front := rows[..|rows| - 1];
      assert AggIds(rows) == AggIds(front) + [rows[|rows| - 1].aggregatorId];
      NoRowsOfAgg(front, a);
    }
  }

  /** The devices dict built from `rows` alone. */
  function Devices(rows: seq<Row>): (ds: Dict<int, DeviceInfo>)
    ensures OrderedDicts.Valid(ds)
    ensures forall d :: d in ds.entries ==> OrderedDicts.Valid(ds.entries[d].metrics)
  {
    if rows == [] then Empty() else AddToDevices(Devices(rows[..|rows| - 1]), rows[|rows| - 1])
  }

  /** The metrics dict built from `rows` alone. */
  function Metrics(rows: seq<Row>): (ms: Dict<int, MetricInfo>)
    ensures OrderedDicts.Valid(ms)
  {
    if rows == [] then Empty() else AddToMetrics(Metrics(rows[..|rows| - 1]), rows[|rows| - 1])
  }

  /** An aggregator's devices depend on that aggregator's rows only. */
  lemma {:induction false} AggregatorDevices(rows: seq<Row>, a: int)
    requires a in Group(rows).entries
    ensures Group(rows).entries[a].devices == Devices(RowsOfAgg(rows, a))
  {
    var front, r := rows[..|rows| - 1], rows[|rows| - 1];
    var m := Group(front);
    assert Group(rows) == AddRow(m, r);
    assert RowsOfAgg(rows, a) == RowsOfAgg(front, a) + (if r.aggregatorId == a then [r] else []);
    AddRowAt(m, r, a);
    if a in m.entries {
      AggregatorDevices(front, a);
      if r.aggregatorId == a {
        DevicesStep(RowsOfAgg(front, a), r);
        assert Group(rows).entries[a].devices == AddToDevices(m.entries[a].devices, r);
      } else {
        assert RowsOfAgg(front, a) + [] == RowsOfAgg(front, a);
        assert Group(rows).entries[a] == m.entries[a];
      }
    } else {
      GroupAggregators(front);
      assert a !in AggIds(front);
      NoRowsOfAgg(front, a);
      DevicesStep([], r);
      assert [] + [r] == [r];
      assert Group(rows).entries[a].devices == AddToDevices(Empty(), r);
    }
  }

  lemma DevicesStep(rows: seq<Row>, r: Row)
    ensures Devices(rows + [r]) == AddToDevices(Devices(rows), r)
  {
    assert (rows + [r])[..|rows|] == rows;
  }

  lemma AddToDevicesAt(ds: Dict<int, DeviceInfo>, r: Row, d: int)
    requires OrderedDicts.Valid(ds) && forall k :: k in ds.entries ==> OrderedDicts.Valid(ds.entries[k].metrics)
    ensures d in AddToDevices(ds, r).entries <==> d in ds.entries || d == r.deviceId
    ensures AddToDevices(ds, r).keys == if r.deviceId in ds.entries then ds.keys else ds.keys + [r.deviceId]
    ensures d != r.deviceId && d in ds.entries ==> AddToDevices(ds, r).entries[d] == ds.entries[d]
    ensures d == r.deviceId && d in ds.entries ==>
      var di := ds.entries[d];
      AddToDevices(ds, r).entries[d] == DeviceInfo(di.deviceId, di.deviceName, Later(di.lastUpdated, r.snapshotTime), AddToMetrics(di.metrics, r))
    ensures d == r.deviceId && d !in ds.entries ==>
      AddToDevices(ds, r).entries[d] == DeviceInfo(d, r.deviceName, r.snapshotTime, AddToMetrics(Empty(), r))
  {
  }

  /**
   * Within one aggregator each device id appears once, in the order of its
   * first row; its entry carries that id, the name from its first row, the
   * latest time among its rows and the metrics built from its rows alone.
   */
  lemma {:induction false} DevicesDescribe(rows: seq<Row>)
    ensures Devices(rows).keys == DistinctFirst(DeviceIds(rows))
    ensures forall d :: d in Devices(rows).entries ==>
      && ByDevice(rows, d) != []
      && Devices(rows).entries[d] == DeviceInfo(d, ByDevice(rows, d)[0].deviceName, LatestTime(ByDevice(rows, d)), Metrics(ByDevice(rows, d)))
  {
    if rows != [] {
      var front, r := rows[..|rows| - 1], rows[|rows| - 1];
      DevicesDescribe(front);
      var ds := Devices(front);
      assert Devices(rows) == AddToDevices(ds, r);
      assert DeviceIds(rows) == DeviceIds(front) + [r.deviceId];
      AddToDevicesAt(ds, r, r.deviceId);
      forall d | d in Devices(rows).entries
        ensures ByDevice(rows, d) != []
        ensures Devices(rows).entries[d] == DeviceInfo(d, ByDevice(rows, d)[0].deviceName, LatestTime(ByDevice(rows, d)), Metrics(ByDevice(rows, d)))
      {
        AddToDevicesAt(ds, r, d);
        var bd := ByDevice(front, d);
        assert ByDevice(rows, d) == bd + (if r.deviceId == d then [r] else []);
        if d != r.deviceId {
          assert bd + [] == bd;
        } else if d in ds.entries {
          OneMoreRow(bd, r);
        } else {
          assert d !in DeviceIds(front);
          NoRowsOfDevice(front, d);
          OneMoreRow([], r);
          assert [] + [r] == [r];
          assert LatestTime([r]) == r.snapshotTime;
        }
      }
    }
  }

  lemma {:induction false} NoRowsOfDevice(rows: seq<Row>, d: int)
    requires d !in DeviceIds(rows)
    ensures ByDevice(rows, d) == []
  {
    if rows != [] {
      var front := rows[..|rows| - 1];
      assert DeviceIds(rows) == DeviceIds(front) + [rows[|rows| - 1].deviceId];
      NoRowsOfDevice(front, d);
    }
  }

  /** How the per-row folds unfold on one more row. */
  lemma OneMoreRow(rows: seq<Row>, r: Row)
    ensures (rows + [r])[0] == if rows == [] then r else rows[0]
    ensures LatestTime(rows + [r]) == Later(LatestTime(rows), r.snapshotTime)
    ensures Metrics(rows + [r]) == AddToMetrics(Metrics(rows), r)
    ensures Points(rows + [r]) == Points(rows) + [Point(r.snapshotTime, r.metricValue)]
  {
    assert (rows + [r])[..|rows|] == rows;
  }

  lemma AddToMetricsAt(ms: Dict<int, MetricInfo>, r: Row, m: int)
    requires OrderedDicts.Valid(ms)
    ensures m in AddToMetrics(ms, r).entries <==> m in ms.entries || m == r.metricDefId
    ensures AddToMetrics(ms, r).keys == if r.metricDefId in ms.entries then ms.keys else ms.keys + [r.metricDefId]
    ensures m != r.metricDefId && m in ms.entries ==> AddToMetrics(ms, r).entries[m] == ms.entries[m]
    ensures m == r.metricDefId && m in ms.entries ==>
      var mi := ms.entries[m];
      AddToMetrics(ms, r).entries[m] == MetricInfo(mi.metricName, mi.displayType, mi.data + [Point(r.snapshotTime, r.metricValue)])
    ensures m == r.metricDefId && m !in ms.entries ==>
      AddToMetrics(ms, r).entries[m] == MetricInfo(r.metricName, r.displayType, [Point(r.snapshotTime, r.metricValue)])
  {
  }

  /**
   * Within one device each metric definition id appears once, in the order of
   * its first row; its entry carries the name and display type from its first
   * row and one point per row, in row order.
   */
  lemma {:induction false} MetricsDescribe(rows: seq<Row>)
    ensures Metrics(rows).keys == DistinctFirst(MetricIds(rows))
    ensures forall m :: m in Metrics(rows).entries ==>
      && ByMetric(rows, m) != []
      && Metrics(rows).entries[m] == MetricInfo(ByMetric(rows, m)[0].metricName, ByMetric(rows, m)[0].displayType, Points(ByMetric(rows, m)))
  {
    if rows != [] {
      var front, r := rows[..|rows| - 1], rows[|rows| - 1];
      MetricsDescribe(front);
      var ms := Metrics(front);
      assert Metrics(rows) == AddToMetrics(ms, r);
      assert MetricIds(rows) == MetricIds(front) + [r.metricDefId];
      AddToMetricsAt(ms, r, r.metricDefId);
      forall m | m in Metrics(rows).entries
        ensures ByMetric(rows, m) != []
        ensures Metrics(rows).entries[m] == MetricInfo(ByMetric(rows, m)[0].metricName, ByMetric(rows, m)[0].displayType, Points(ByMetric(rows, m)))
      {
        AddToMetricsAt(ms, r, m);
        var bm := ByMetric(front, m);
        assert ByMetric(rows, m) == bm + (if r.metricDefId == m then [r] else []);
        if m != r.metricDefId {
          assert bm + [] == bm;
        } else if m in ms.entries {
          OneMoreRow(bm, r);
        } else {
          assert m !in MetricIds(front);
          NoRowsOfMetric(front, m);
          OneMoreRow([], r);
          assert [] + [r] == [r];
        }
      }
    }
  }

  lemma {:induction false} NoRowsOfMetric(rows: seq<Row>, m: int)
    requires m !in MetricIds(rows)
    ensures ByMetric(rows, m) == []
  {
    if rows != [] {
      var front := rows[..|rows| - 1];
      assert MetricIds(rows) == MetricIds(front) + [rows[|rows| - 1].metricDefId];
      NoRowsOfMetric(front, m);
    }
  }

  // The response: the nested dicts turned into lists, in dict order.

  /** A device of the response; `lastUpdated` is the formatted latest time. */
  datatype DeviceOut = DeviceOut(deviceId: int, deviceName: string, lastUpdated: Option<string>, metrics: seq<MetricInfo>)

  /** An aggregator of the response. */
  datatype AggOut = AggOut(aggregatorId: int, aggregatorName: string, devices: seq<DeviceOut>)

  /** `format_timestamp(t) if t else None` */
  function LastUpdatedText(t: Option<PyDateTime>): (s: Option<string>)
    ensures s.None? <==> t.None?
    ensures t.Some? ==> s.value == FormatTimestamp(t)
  {
    if t.Some? then Some(FormatTimestamp(t)) else None
  }

  function RenderDevice(di: DeviceInfo): DeviceOut
    requires OrderedDicts.Valid(di.metrics)
  {
    DeviceOut(di.deviceId, di.deviceName, LastUpdatedText(di.lastUpdated), Values(di.metrics))
  }

  /** The entry of the device at position `j` of the devices dict. */
  function DeviceAt(ds: Dict<int, DeviceInfo>, j: int): DeviceOut
    requires OrderedDicts.Valid(ds)
    requires forall d :: d in ds.entries ==> OrderedDicts.Valid(ds.entries[d].metrics)
    requires 0 <= j < |ds.keys|
  {
    var d := ds.keys[j];
    assert d in ds.keys;
    RenderDevice(ds.entries[d])
  }

  /** The device list of one aggregator, one entry per key of its devices dict. */
  function RenderDevices(ds: Dict<int, DeviceInfo>): (out: seq<DeviceOut>)
    requires OrderedDicts.Valid(ds)
    requires forall d :: d in ds.entries ==> OrderedDicts.Valid(ds.entries[d].metrics)
    ensures |out| == |ds.keys|
    ensures forall j :: 0 <= j < |ds.keys| ==> out[j] == DeviceAt(ds, j)
  {
    seq(|ds.keys|, j requires 0 <= j < |ds.keys| => DeviceAt(ds, j))
  }

  function RenderAggregator(ai: AggInfo): AggOut
    requires OrderedDicts.Valid(ai.devices)
    requires forall d :: d in ai.devices.entries ==> OrderedDicts.Valid(ai.devices.entries[d].metrics)
  {
    AggOut(ai.aggregatorId, ai.aggregatorName, RenderDevices(ai.devices))
  }

  /** The entry of the aggregator at position `i` of `aggregator_map`. */
  function AggregatorAt(m: AggMap, i: int): AggOut
    requires MapValid(m) && 0 <= i < |m.keys|
  {
    var a := m.keys[i];
    assert a in m.keys;
    RenderAggregator(m.entries[a])
  }

  /** The response, one entry per key of `aggregator_map`, in key order. */
  function Render(m: AggMap): (out: seq<AggOut>)
    requires MapValid(m)
    ensures |out| == |m.keys|
    ensures forall i :: 0 <= i < |m.keys| ==> out[i] == AggregatorAt(m, i)
  {
    seq(|m.keys|, i requires 0 <= i < |m.keys| => AggregatorAt(m, i))
  }

  lemma FilterStep(rows: seq<Row>, i: int, aggregator: string, device: string)
    requires 0 <= i < |rows|
    ensures Filter(rows[..i + 1], aggregator, device)
         == Filter(rows[..i], aggregator, device) + (if Keep(rows[i], aggregator, device) then [rows[i]] else [])
  {
    assert rows[..i + 1][..i] == rows[..i];
  }

  lemma GroupStep(rows: seq<Row>, i: int)
    requires 0 <= i < |rows|
    ensures Group(rows[..i + 1]) == AddRow(Group(rows[..i]), rows[i])
  {
    assert rows[..i + 1][..i] == rows[..i];
  }

  /**
   * `get_overview` after the database call: filter the rows, group them, and
   * turn the groups into the response lists.
   */
  method GetOverview(rows: seq<Row>, aggregator: string, device: string) returns (result: seq<AggOut>)
    ensures result == Render(Group(Filter(rows, aggregator, device)))
  {
    var filtered: seq<Row> := [];
    for i := 0 to |rows|
      invariant filtered == Filter(rows[..i], aggregator, device)
    {
      FilterStep(rows, i, aggregator, device);
      if Keep(rows[i], aggregator, device) {
        filtered := filtered + [rows[i]];
      } else {
        assert filtered + [] == filtered;
      }
    }
    assert rows[..|rows|] == rows;

    var aggregatorMap: AggMap := Empty();
    for i := 0 to |filtered|
      invariant aggregatorMap == Group(filtered[..i])
    {
      GroupStep(filtered, i);
      aggregatorMap := AddRow(aggregatorMap, filtered[i]);
    }
    assert filtered[..|filtered|] == filtered;
    result := RenderLoop(aggregatorMap);
  }

  /** The final loop of `get_overview`: one response entry per aggregator key, in key order. */
  method RenderLoop(m: AggMap) returns (result: seq<AggOut>)
    requires MapValid(m)
    ensures result == Render(m)
  {
    result := [];
    for i := 0 to |m.keys|
      invariant |result| == i
      invariant forall k :: 0 <= k < i ==> result[k] == AggregatorAt(m, k)
    {
      var a := m.keys[i];
      assert a in m.keys;
      result := result + [RenderAggregator(m.entries[a])];
    }
  }

  // What the response says about the kept rows.

  /**
   * One entry per aggregator id among the kept rows, in first-appearance
   * order, named after its first row, listing the devices built from its own
   * rows.
   */
  lemma OverviewAggregators(kept: seq<Row>)
    ensures var out, ids := Render(Group(kept)), DistinctFirst(AggIds(kept));
      && |out| == |ids|
      && forall i :: 0 <= i < |ids| ==>
           && RowsOfAgg(kept, ids[i]) != []
           && out[i].aggregatorId == ids[i]
           && out[i].aggregatorName == RowsOfAgg(kept, ids[i])[0].aggregatorName
           && out[i].devices == RenderDevices(Devices(RowsOfAgg(kept, ids[i])))
  {
    GroupAggregators(kept);
    var m := Group(kept);
    forall i | 0 <= i < |m.keys|
      ensures m.entries[m.keys[i]].devices == Devices(RowsOfAgg(kept, m.keys[i]))
    {
      AggregatorDevices(kept, m.keys[i]);
    }
  }

  /**
   * Within an aggregator's rows: one entry per device id, in first-appearance
   * order, named after its first row, with the formatted latest time among
   * its rows and the metrics built from its own rows.
   */
  lemma OverviewDevices(rows: seq<Row>)
    ensures var out, ids := RenderDevices(Devices(rows)), DistinctFirst(DeviceIds(rows));
      && |out| == |ids|
      && forall j :: 0 <= j < |ids| ==>
           && ByDevice(rows, ids[j]) != []
           && out[j].deviceId == ids[j]
           && out[j].deviceName == ByDevice(rows, ids[j])[0].deviceName
           && out[j].lastUpdated == LastUpdatedText(LatestTime(ByDevice(rows, ids[j])))
           && out[j].metrics == Values(Metrics(ByDevice(rows, ids[j])))
  {
    DevicesDescribe(rows);
    var ds, ids := Devices(rows), DistinctFirst(DeviceIds(rows));
    forall j | 0 <= j < |ids|
      ensures ByDevice(rows, ids[j]) != []
      ensures RenderDevices(ds)[j] == DeviceOut(ids[j], ByDevice(rows, ids[j])[0].deviceName,
                LastUpdatedText(LatestTime(ByDevice(rows, ids[j]))), Values(Metrics(ByDevice(rows, ids[j]))))
    {
      assert ds.keys[j] == ids[j] && ids[j] in ds.entries;
    }
  }

  /**
   * Within a device's rows: one entry per metric definition id, in
   * first-appearance order, with the name and display type of its first row
   * and one point per row, in row order.
   */
  lemma OverviewMetrics(rows: seq<Row>)
    ensures var out, ids := Values(Metrics(rows)), DistinctFirst(MetricIds(rows));
      && |out| == |ids|
      && forall k :: 0 <= k < |ids| ==>
           && ByMetric(rows, ids[k]) != []
           && out[k] == MetricInfo(ByMetric(rows, ids[k])[0].metricName, ByMetric(rows, ids[k])[0].displayType, Points(ByMetric(rows, ids[k])))
  {
    MetricsDescribe(rows);
  }
}
