/**
 * The stand-alone client's aggregator: collectors put metric dicts on a queue,
 * and each round the aggregator drains the queue and merges every dict into
 * one snapshot, later readings overwriting earlier ones.
 */
module LegacyAggregator {
  import opened DtoModels
  import OrderedDicts

  type Metrics = OrderedDicts.Dict<string, MetricValue>

  /** An item taken from the queue: a metric dict, or anything else a producer put there. */
  datatype QueueItem = DictItem(metrics: Metrics) | OtherItem

  /** `Snapshot(timestamp, metrics)`; the timestamp is the clock reading taken when it is built. */
  datatype Snapshot = Snapshot(timestamp: Timestamp, metrics: Metrics)

  /** Every dict on the queue is a well-formed dict. */
  ghost predicate ItemsValid(items: seq<QueueItem>) {
    forall i :: 0 <= i < |items| && items[i].DictItem? ==> OrderedDicts.Valid(items[i].metrics)
  }

  /** `merged.update(item)` for each dict item in turn; other items are skipped. */
  function MergeItems(items: seq<QueueItem>): (r: Metrics)
    requires ItemsValid(items)
    ensures OrderedDicts.Valid(r)
  {
    if items == [] then OrderedDicts.Empty()
    else
      var front := items[..|items| - 1];
      assert ItemsValid(front);
      match items[|items| - 1]
      case DictItem(m) => OrderedDicts.Update(MergeItems(front), m)
      case OtherItem => MergeItems(front)
  }

  /** Whether the dict item at index `i` of `items` reads metric `k`. */
  predicate Reads(items: seq<QueueItem>, i: int, k: string) {
    0 <= i < |items| && items[i].DictItem? && k in items[i].metrics.entries
  }

  /** The merged keys are exactly the keys some dict item carries. */
  lemma {:induction false} MergedKeysAreUnion(items: seq<QueueItem>, k: string)
    requires ItemsValid(items)
    ensures k in MergeItems(items).entries <==> exists i :: Reads(items, i, k)
  {
    if items != [] {
      var front, last := items[..|items| - 1], items[|items| - 1];
      MergedKeysAreUnion(front, k);
      assert forall i :: 0 <= i < |front| ==> front[i] == items[i];
      assert forall i :: 0 <= i < |front| ==> (Reads(items, i, k) <==> Reads(front, i, k));
      match last {
        case DictItem(d) =>
          assert k in MergeItems(items).entries <==> k in MergeItems(front).entries || k in d.entries;
          if k in d.entries {
            assert Reads(items, |front|, k);
          }
        case OtherItem =>
          assert !Reads(items, |front|, k);
      }
    }
  }

  /** On a collision the later dict wins: a key holds the value of the last dict item that read it. */
  lemma {:induction false} LastWriterWins(items: seq<QueueItem>, i: int, k: string)
    requires ItemsValid(items)
    requires Reads(items, i, k)
    requires forall j :: i < j < |items| ==> !Reads(items, j, k)
    ensures k in MergeItems(items).entries
    ensures MergeItems(items).entries[k] == items[i].metrics.entries[k]
  {
    var front := items[..|items| - 1];
    if i < |items| - 1 {
      assert forall j :: 0 <= j < |front| ==> front[j] == items[j];
      assert Reads(front, i, k);
      assert forall j :: i < j < |front| ==> !Reads(front, j, k) by {
        forall j | i < j < |front|
          ensures !Reads(front, j, k)
        {
          assert !Reads(items, j, k);
        }
      }
      LastWriterWins(front, i, k);
      assert !Reads(items, |items| - 1, k);
    }
  }

  /** The dict items of `items`, in order. */
  function DictsOnly(items: seq<QueueItem>): (r: seq<QueueItem>)
    ensures forall i :: 0 <= i < |r| ==> r[i].DictItem? && r[i] in items
  {
    if items == [] then []
    else
      var front := items[..|items| - 1];
      var rest := DictsOnly(front);
      assert forall x :: x in front ==> x in items;
      if items[|items| - 1].DictItem? then rest + [items[|items| - 1]] else rest
  }

  /** Items that are not dicts contribute nothing: merging only the dicts gives the same result. */
  lemma {:induction false} NonDictItemsSkipped(items: seq<QueueItem>)
    requires ItemsValid(items)
    ensures ItemsValid(DictsOnly(items))
    ensures MergeItems(DictsOnly(items)) == MergeItems(items)
  {
    if items != [] {
      var front := items[..|items| - 1];
      NonDictItemsSkipped(front);
      var d := DictsOnly(front);
      if items[|items| - 1].DictItem? {
        var r := d + [items[|items| - 1]];
        assert r[..|r| - 1] == d;
      }
    }
  }

  /** No dict on the queue: the round yields an empty-metrics snapshot. */
  lemma {:induction false} NoDictsGiveEmptyMetrics(items: seq<QueueItem>)
    requires ItemsValid(items)
    requires forall i :: 0 <= i < |items| ==> items[i].OtherItem?
    ensures MergeItems(items) == OrderedDicts.Empty()
  {
    if items != [] {
      NoDictsGiveEmptyMetrics(items[..|items| - 1]);
    }
  }

  /** Taking one more of the queued items merges it last. */
  lemma MergePrefixStep(items: seq<QueueItem>, n: nat)
    requires n < |items| && ItemsValid(items)
    ensures ItemsValid(items[..n]) && ItemsValid(items[..n + 1])
    ensures MergeItems(items[..n + 1]) == match items[n]
      case DictItem(m) => OrderedDicts.Update(MergeItems(items[..n]), m)
      case OtherItem => MergeItems(items[..n])
  {
    assert items[..n + 1][..n] == items[..n];
  }

  /** The `queue.Queue` the collectors feed, oldest item first. */
  class InputQueue {
    var items: seq<QueueItem>

    constructor (items: seq<QueueItem>)
      ensures this.items == items
    {
      this.items := items;
    }

    /** `empty()` */
    method IsEmpty() returns (b: bool)
      ensures b <==> items == []
    {
      b := items == [];
    }

    /** `get()`: removes and returns the oldest item; the aggregator calls it only after `empty()` said no. */
    method Get() returns (item: QueueItem)
      requires items != []
      modifies this
      ensures item == old(items)[0] && items == old(items)[1..]
    {
      item := items[0];
      items := items[1..];
    }
  }

  class Aggregator {
    const inputQueue: InputQueue
    /** Seconds slept between rounds. */
    const interval: int
    /** The `_stop` flag `run_forever` checks before each round. */
    var stopped: bool

    constructor (inputQueue: InputQueue, interval: int)
      ensures this.inputQueue == inputQueue && this.interval == interval && !stopped
    {
      this.inputQueue := inputQueue;
      this.interval := interval;
      stopped := false;
    }

    /** `aggregate`: drains the queue and merges its dict items, in dequeue order, into one snapshot taken at `now`. */
    method Aggregate(now: Timestamp) returns (s: Snapshot)
      requires ItemsValid(inputQueue.items)
      modifies inputQueue
      ensures inputQueue.items == []
      ensures s == Snapshot(now, MergeItems(old(inputQueue.items)))
    {
      var merged := OrderedDicts.Empty();
      ghost var queued := inputQueue.items;
      ghost var n := 0;
      var empty := inputQueue.IsEmpty();
      while !empty
        invariant n <= |queued| && inputQueue.items == queued[n..]
        invariant ItemsValid(queued[..n]) && merged == MergeItems(queued[..n])
        invariant empty <==> inputQueue.items == []
        decreases |inputQueue.items|
      {
        MergePrefixStep(queued, n);
        var item := inputQueue.Get();
        if item.DictItem? {
          merged := OrderedDicts.Update(merged, item.metrics);
        }
        n := n + 1;
        empty := inputQueue.IsEmpty();
      }
      assert queued[..n] == queued;
      s := Snapshot(now, merged);
    }

    /** `stop`: raises the flag; the loop exits when it next checks it. */
    method Stop()
      modifies this
      ensures stopped
    {
      stopped := true;
    }

    /**
     * `run_forever`, one round per clock reading in `times`, while `stop` is
     * called during round `stopDuring`: that round completes and no further
     * round starts. Only the first round finds the items queued beforehand,
     * since nothing is produced in between here.
     */
    method RunForever(times: seq<Timestamp>, stopDuring: nat) returns (snapshots: seq<Snapshot>)
      requires ItemsValid(inputQueue.items)
      modifies this, inputQueue
      ensures old(stopped) ==> snapshots == [] && inputQueue.items == old(inputQueue.items)
      ensures !old(stopped) ==> |snapshots| == if stopDuring < |times| then stopDuring + 1 else |times|
      ensures !old(stopped) && times != [] ==> snapshots[0] == Snapshot(times[0], MergeItems(old(inputQueue.items)))
      ensures forall j :: 1 <= j < |snapshots| ==> snapshots[j] == Snapshot(times[j], OrderedDicts.Empty())
    {
      snapshots := [];
      var i := 0;
      while !stopped && i < |times|
        invariant 0 <= i <= |times| && |snapshots| == i
        invariant old(stopped) ==> i == 0 && stopped && inputQueue.items == old(inputQueue.items)
        invariant !old(stopped) ==> (stopped <==> i > stopDuring) && i <= stopDuring + 1
        invariant i == 0 ==> inputQueue.items == old(inputQueue.items)
        invariant i > 0 ==> inputQueue.items == []
        invariant !old(stopped) && i > 0 ==> snapshots[0] == Snapshot(times[0], MergeItems(old(inputQueue.items)))
        invariant forall j :: 1 <= j < i ==> snapshots[j] == Snapshot(times[j], OrderedDicts.Empty())
        invariant ItemsValid(inputQueue.items)
        modifies this, inputQueue
      {
        var s := Aggregate(times[i]);
        if i > 0 {
          assert s.metrics == OrderedDicts.Empty();
        }
        snapshots := snapshots + [s];
        if i == stopDuring {
          Stop();
        }
        i := i + 1;
      }
    }
  }
}
