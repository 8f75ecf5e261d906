/**
 * The SDK's resilient aggregator: a buffer holding at most one pending
 * snapshot per device, the upload cycle that drains it, the retry cycle that
 * re-sends what could not be delivered, and the registry through which
 * commands reach devices. The buffer lock makes each method one atomic step.
 */
module AggregatorApis {
  import opened Wrappers
  import opened OrderedDicts
  import opened DtoModels
  import opened RetryQueues
  import opened Devices

  /** How an upload POST ends: no connection, an HTTP error status, or success. */
  datatype HttpOutcome = ConnectFail | HttpError | Ok

  /**
   * `_upload`: true once the server answered at all. An error status counts
   * as delivered (the payload is dropped); only a failed connection is false.
   */
  function Upload(payload: AggregatorData, outcome: HttpOutcome): (connected: bool)
    ensures !connected <==> outcome == ConnectFail
    ensures outcome == HttpError ==> connected
  {
    match outcome
    case ConnectFail => false
    case HttpError => true
    case Ok => true
  }

  /** The snapshots that go back onto the retry queue after an upload attempt of `payload`. */
  function Requeued(payload: Option<AggregatorData>, outcome: HttpOutcome): (r: seq<DeviceSnapshot>)
    ensures payload.None? ==> r == []
    ensures payload.Some? ==> r == if outcome == ConnectFail then payload.value.deviceSnapshots else []
  {
    if payload.Some? && !Upload(payload.value, outcome) then payload.value.deviceSnapshots else []
  }

  /** When each periodic cycle of `run` last fired. */
  datatype Schedule = Schedule(lastUpload: int, lastRetry: int)

  /** `current_time - last >= period` */
  predicate Due(last: int, now: int, period: int) {
    now - last >= period
  }

  /** The new "last fired" time of a cycle after a tick at `now`. */
  function Advance(last: int, now: int, period: int): (r: int)
    ensures Due(last, now, period) ==> r == now
    ensures !Due(last, now, period) ==> r == last
  {
    if Due(last, now, period) then now else last
  }

  /** One tick of `run`'s loop at time `now`: each cycle fires when its period has elapsed. */
  function Tick(s: Schedule, now: int, interval: int, retryInterval: int): (r: Schedule)
    ensures r.lastUpload == if Due(s.lastUpload, now, interval) then now else s.lastUpload
    ensures r.lastRetry == if Due(s.lastRetry, now, retryInterval) then now else s.lastRetry
  {
    Schedule(Advance(s.lastUpload, now, interval), Advance(s.lastRetry, now, retryInterval))
  }

  /** The times, among the ticks `times`, at which a cycle with period `period` fires. */
  function Firings(last: int, times: seq<int>, period: int): seq<int>
    decreases |times|
  {
    if times == [] then []
    else
      var next := Advance(last, times[0], period);
      if Due(last, times[0], period) then [times[0]] + Firings(next, times[1..], period)
      else Firings(next, times[1..], period)
  }

  /**
   * A cycle never fires twice within less than its period, and never earlier
   * than one period after it last fired; every firing is one of the ticks.
   */
  lemma {:induction false} FiringsAreSpaced(last: int, times: seq<int>, period: int)
    ensures var f := Firings(last, times, period);
      && (forall i :: 0 <= i < |f| ==> f[i] in times)
      && (|f| > 0 ==> f[0] - last >= period)
      && (forall i :: 0 < i < |f| ==> f[i] - f[i - 1] >= period)
    decreases |times|
  {
    if times != [] {
      var next := Advance(last, times[0], period);
      FiringsAreSpaced(next, times[1..], period);
      var rest := Firings(next, times[1..], period);
      if Due(last, times[0], period) {
        var f := [times[0]] + rest;
        forall i | 0 < i < |f| ensures f[i] - f[i - 1] >= period {
          if i > 1 { assert f[i] == rest[i - 1] && f[i - 1] == rest[i - 2]; }
        }
      }
    }
  }

  /** Taking the first of the remaining ticks: it fires when due, and the rest follow from the advanced time. */
  lemma FiringsStep(last: int, times: seq<int>, i: nat, period: int)
    requires i < |times|
    ensures Firings(last, times[i..], period)
      == (if Due(last, times[i], period) then [times[i]] else [])
         + Firings(Advance(last, times[i], period), times[i + 1..], period)
  {
    assert times[i..][1..] == times[i + 1..];
  }

  /** What one iteration of `run`'s loop meets: the clock reading and how each attempted POST ends. */
  datatype TickInput = TickInput(now: int, uploadOutcome: HttpOutcome, retryOutcome: HttpOutcome)

  /** The clock readings of a series of iterations. */
  function Nows(ticks: seq<TickInput>): (r: seq<int>)
    ensures |r| == |ticks| && forall i :: 0 <= i < |ticks| ==> r[i] == ticks[i].now
  {
    seq(|ticks|, i requires 0 <= i < |ticks| => ticks[i].now)
  }

  class AggregatorApi {
    const guid: string
    const name: string
    /** Upload period. */
    const interval: int
    /** Retry period. */
    const retryInterval: int
    /** `_snapshot_buffer`: device name to the pending snapshot object, in insertion order. */
    var buffer: Dict<string, DeviceSnapshot>
    const retryQueue: RetryQueue<DeviceSnapshot>
    /** `device_registry`: device name to device. */
    var registry: map<string, Device>

    /** Each buffered snapshot is filed under its own device name, once; likewise each device. */
    ghost predicate Valid()
      reads this
    {
      && OrderedDicts.Valid(buffer)
      && (forall k :: k in buffer.entries ==> buffer.entries[k].deviceName == k)
      && (forall k :: k in registry ==> registry[k].name == k)
    }

    /** `list(self._snapshot_buffer.values())` */
    function BufferedSnapshots(): (ss: seq<DeviceSnapshot>)
      reads this
      requires Valid()
      ensures |ss| == |buffer.keys|
      ensures forall i :: 0 <= i < |ss| ==> ss[i] == buffer.entries[buffer.keys[i]] && ss[i].deviceName == buffer.keys[i]
    {
      Values(buffer)
    }

    constructor (guid: string, name: string, interval: int, retryInterval: int)
      ensures Valid()
      ensures this.guid == guid && this.name == name
      ensures this.interval == interval && this.retryInterval == retryInterval
      ensures buffer == Empty() && registry == map[]
      ensures fresh(retryQueue) && retryQueue.items == []
    {
      this.guid := guid;
      this.name := name;
      this.interval := interval;
      this.retryInterval := retryInterval;
      buffer := Empty();
      retryQueue := new RetryQueue();
      registry := map[];
    }

    /** `register_device`: files the device under its name, replacing any earlier one. */
    method RegisterDevice(device: Device)
      requires Valid()
      modifies this
      ensures Valid()
      ensures registry == old(registry)[device.name := device]
      ensures buffer == old(buffer)
    {
      registry := registry[device.name := device];
    }

    /**
     * `add_snapshot`: a device already buffered has the snapshot merged into
     * its entry (the entry object is updated in place); a new device gets the
     * caller's object itself as its entry, appended to the buffer.
     */
    method AddSnapshot(snapshot: DeviceSnapshot)
      requires Valid()
      modifies this, if snapshot.deviceName in buffer.entries then {buffer.entries[snapshot.deviceName]} else {}
      ensures Valid()
      ensures registry == old(registry)
      ensures snapshot.deviceName in old(buffer.entries) ==>
        && buffer == old(buffer)
        && buffer.entries[snapshot.deviceName].View()
           == MergeValues(old(buffer.entries[snapshot.deviceName].View()), old(snapshot.View())).value
      ensures snapshot.deviceName !in old(buffer.entries) ==>
        buffer == Put(old(buffer), snapshot.deviceName, snapshot)
    {
      if snapshot.deviceName in buffer.entries {
        var existing := buffer.entries[snapshot.deviceName];
        var outcome := existing.Merge(snapshot);
        assert outcome == None;
      } else {
        buffer := Put(buffer, snapshot.deviceName, snapshot);
      }
    }

    /**
     * `_upload_merged_data`: an empty buffer means no upload. Otherwise the
     * buffer is emptied, one payload with this aggregator's identity carries
     * every drained snapshot, and if the connection fails each snapshot is
     * enqueued for retry on its own, in payload order.
     */
    method UploadMergedData(outcome: HttpOutcome) returns (payload: Option<AggregatorData>)
      requires Valid()
      modifies this, retryQueue
      ensures Valid()
      ensures buffer == Empty() && registry == old(registry)
      ensures old(buffer.keys) == [] ==> payload == None
      ensures old(buffer.keys) != [] ==> payload == Some(AggregatorData(guid, name, old(BufferedSnapshots())))
      ensures retryQueue.items == old(retryQueue.items) + Requeued(payload, outcome)
    {
      if buffer.keys == [] {
        return None;
      }
      var snapshots := Values(buffer);
      buffer := Empty();
      var data := AggregatorData(guid, name, snapshots);
      var queueSize := retryQueue.Size();
      if !Upload(data, outcome) {
        for i := 0 to |snapshots|
          invariant retryQueue.items == old(retryQueue.items) + snapshots[..i]
          invariant buffer == Empty() && registry == old(registry)
        {
          retryQueue.Enqueue(snapshots[i]);
        }
        assert snapshots[..|snapshots|] == snapshots;
      }
      payload := Some(data);
    }

    /**
     * `_flush_retry_queue`: drains the retry queue; nothing more when it was
     * empty. Otherwise one payload carries every drained snapshot and, if the
     * connection fails, all of them are enqueued again, in order.
     */
    method FlushRetryQueue(outcome: HttpOutcome) returns (payload: Option<AggregatorData>)
      requires Valid()
      modifies this, retryQueue
      ensures Valid()
      ensures buffer == old(buffer) && registry == old(registry)
      ensures old(retryQueue.items) == [] ==> payload == None
      ensures old(retryQueue.items) != [] ==> payload == Some(AggregatorData(guid, name, old(retryQueue.items)))
      ensures retryQueue.items == Requeued(payload, outcome)
    {
      var items := retryQueue.DequeueAll();
      if items == [] {
        return None;
      }
      var data := AggregatorData(guid, name, items);
      if !Upload(data, outcome) {
        for i := 0 to |items|
          invariant retryQueue.items == items[..i]
          invariant buffer == old(buffer) && registry == old(registry)
        {
          retryQueue.Enqueue(items[i]);
        }
        assert items[..|items|] == items;
      }
      payload := Some(data);
    }

    /**
     * One iteration of `run` at time `now`: the upload cycle if its period has
     * elapsed, then the retry cycle if its period has elapsed, each attempt
     * ending as the given outcome.
     */
    method RunIteration(sched: Schedule, now: int, uploadOutcome: HttpOutcome, retryOutcome: HttpOutcome)
      returns (next: Schedule, uploaded: Option<AggregatorData>, retried: Option<AggregatorData>)
      requires Valid()
      modifies this, retryQueue
      ensures Valid() && registry == old(registry)
      ensures next == Tick(sched, now, interval, retryInterval)
      ensures !Due(sched.lastUpload, now, interval) ==> uploaded == None && buffer == old(buffer)
      ensures Due(sched.lastUpload, now, interval) ==> buffer == Empty()
      ensures Due(sched.lastUpload, now, interval) && old(buffer.keys) != [] ==>
        uploaded == Some(AggregatorData(guid, name, old(BufferedSnapshots())))
      ensures old(buffer.keys) == [] ==> uploaded == None
      ensures !Due(sched.lastRetry, now, retryInterval) ==>
        retried == None && retryQueue.items == old(retryQueue.items) + Requeued(uploaded, uploadOutcome)
      ensures Due(sched.lastRetry, now, retryInterval) ==>
        && retried == (if old(retryQueue.items) + Requeued(uploaded, uploadOutcome) == [] then None
                       else Some(AggregatorData(guid, name, old(retryQueue.items) + Requeued(uploaded, uploadOutcome))))
        && retryQueue.items == Requeued(retried, retryOutcome)
    {
      uploaded, retried := None, None;
      if Due(sched.lastUpload, now, interval) {
        uploaded := UploadMergedData(uploadOutcome);
      }
      ghost var pending := retryQueue.items;
      assert pending == old(retryQueue.items) + Requeued(uploaded, uploadOutcome);
      if Due(sched.lastRetry, now, retryInterval) {
        retried := FlushRetryQueue(retryOutcome);
        assert pending != [] ==> retried == Some(AggregatorData(guid, name, pending));
      }
      next := Tick(sched, now, interval, retryInterval);
    }

    /**
     * `run` over the iterations `ticks`, until the stop event is seen, from
     * the start-up times `start`: the times at which the upload cycle and the
     * retry cycle ran are their `Firings` over the clock readings, so they
     * are spaced as `FiringsAreSpaced` states.
     */
    method Run(start: Schedule, ticks: seq<TickInput>) returns (uploadTimes: seq<int>, retryTimes: seq<int>)
      requires Valid()
      modifies this, retryQueue
      ensures Valid() && registry == old(registry)
      ensures uploadTimes == Firings(start.lastUpload, Nows(ticks), interval)
      ensures retryTimes == Firings(start.lastRetry, Nows(ticks), retryInterval)
    {
      ghost var times := Nows(ticks);
      var sched := start;
      uploadTimes, retryTimes := [], [];
      for i := 0 to |ticks|
        invariant Valid() && registry == old(registry)
        invariant uploadTimes + Firings(sched.lastUpload, times[i..], interval) == Firings(start.lastUpload, times, interval)
        invariant retryTimes + Firings(sched.lastRetry, times[i..], retryInterval) == Firings(start.lastRetry, times, retryInterval)
      {
        var t := ticks[i];
        FiringsStep(sched.lastUpload, times, i, interval);
        FiringsStep(sched.lastRetry, times, i, retryInterval);
        var firedUpload := if Due(sched.lastUpload, t.now, interval) then [t.now] else [];
        var firedRetry := if Due(sched.lastRetry, t.now, retryInterval) then [t.now] else [];
        assert uploadTimes + firedUpload + Firings(Advance(sched.lastUpload, t.now, interval), times[i + 1..], interval)
          == uploadTimes + (firedUpload + Firings(Advance(sched.lastUpload, t.now, interval), times[i + 1..], interval));
        assert retryTimes + firedRetry + Firings(Advance(sched.lastRetry, t.now, retryInterval), times[i + 1..], retryInterval)
          == retryTimes + (firedRetry + Firings(Advance(sched.lastRetry, t.now, retryInterval), times[i + 1..], retryInterval));
        uploadTimes, retryTimes := uploadTimes + firedUpload, retryTimes + firedRetry;
        var uploaded, retried;
        sched, uploaded, retried := RunIteration(sched, t.now, t.uploadOutcome, t.retryOutcome);
      }
      assert times[|ticks|..] == [];
    }

    /**
     * `_handle_command`: a command without a device name, or for a device not
     * registered, reaches no one; otherwise the named device's handler is
     * called once, with the whole command object.
     */
    method HandleCommand(command: CommandRecord) returns (call: Option<HandlerCall>)
      ensures call.Some? <==> Truthy(command.deviceName) && command.deviceName.value in registry
      ensures call.Some? ==> call.value == HandlerCall(registry[command.deviceName.value], WholeCommand(command))
    {
      var deviceName := command.deviceName;
      if !Truthy(deviceName) {
        return None;
      }
      if deviceName.value in registry {
        var device := registry[deviceName.value];
        call := Some(HandlerCall(device, WholeCommand(command)));
      } else {
        call := None;
      }
    }
  }
}
