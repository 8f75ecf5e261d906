/**
 * The in-memory FIFO holding snapshots whose upload failed. The lock makes
 * every method one atomic step, which is how each is modelled.
 */
module RetryQueues {

  class RetryQueue<T> {
    /** The deque's contents, oldest first. */
    var items: seq<T>

    constructor ()
      ensures items == []
    {
      items := [];
    }

    /** `enqueue`: appends at the tail; the earlier items keep their places. */
    method Enqueue(item: T)
      modifies this
      ensures items == old(items) + [item]
      ensures |items| == |old(items)| + 1
    {
      items := items + [item];
    }

    /** `dequeue_all`: returns the whole contents in insertion order and empties the queue. */
    method DequeueAll() returns (drained: seq<T>)
      modifies this
      ensures drained == old(items)
      ensures items == []
    {
      drained := items;
      items := [];
    }

    /** `size`: the number of queued items; the queue is left as it is. */
    method Size() returns (n: nat)
      ensures n == |items|
    {
      n := |items|;
    }

    /** Performs `ops` one after the other; returns what each drain returned. */
    method Perform(ops: seq<QueueOp<T>>) returns (drains: seq<seq<T>>)
      modifies this
      ensures items == Replay(old(items), ops).items
      ensures drains == Replay(old(items), ops).drains
    {
      drains := [];
      var i := 0;
      while i < |ops|
        invariant 0 <= i <= |ops|
        invariant items == Replay(old(items), ops[..i]).items
        invariant drains == Replay(old(items), ops[..i]).drains
      {
        assert ops[..i + 1][..i] == ops[..i];
        match ops[i] {
          case Push(x) =>
            Enqueue(x);
          case Drain =>
            var d := DequeueAll();
            drains := drains + [d];
        }
        i := i + 1;
      }
      assert ops[..i] == ops;
    }
  }

  /** A call made on a retry queue. */
  datatype QueueOp<T> = Push(item: T) | Drain

  /** The contents left after a series of calls and the result of each drain among them. */
  datatype Trace<T> = Trace(items: seq<T>, drains: seq<seq<T>>)

  function Replay<T>(start: seq<T>, ops: seq<QueueOp<T>>): Trace<T>
    decreases |ops|
  {
    if ops == [] then Trace(start, [])
    else
      var t := Replay(start, ops[..|ops| - 1]);
      match ops[|ops| - 1]
      case Push(x) => Trace(t.items + [x], t.drains)
      case Drain => Trace([], t.drains + [t.items])
  }

  function Flatten<T>(ss: seq<seq<T>>): seq<T> {
    if ss == [] then [] else Flatten(ss[..|ss| - 1]) + ss[|ss| - 1]
  }

  /** The items pushed by `ops`, in order. */
  function Pushed<T>(ops: seq<QueueOp<T>>): seq<T> {
    if ops == [] then []
    else Pushed(ops[..|ops| - 1]) + (match ops[|ops| - 1] case Push(x) => [x] case Drain => [])
  }

  /** The items pushed after the last drain of `ops` (all of them if there is none). */
  function PushedSinceDrain<T>(ops: seq<QueueOp<T>>): seq<T> {
    if ops == [] then []
    else
      match ops[|ops| - 1]
      case Push(x) => PushedSinceDrain(ops[..|ops| - 1]) + [x]
      case Drain => []
  }

  /**
   * No item is lost and none is duplicated: the drains, one after the other,
   * followed by what is still queued, are exactly the starting contents
   * followed by every pushed item.
   */
  lemma {:induction false} NoLossNoDuplication<T>(start: seq<T>, ops: seq<QueueOp<T>>)
    ensures Flatten(Replay(start, ops).drains) + Replay(start, ops).items == start + Pushed(ops)
    decreases |ops|
  {
    if ops != [] {
      var front := ops[..|ops| - 1];
      NoLossNoDuplication(start, front);
      var t := Replay(start, front);
      match ops[|ops| - 1]
      case Push(x) =>
        assert Flatten(t.drains) + (t.items + [x]) == (Flatten(t.drains) + t.items) + [x];
      case Drain =>
        var ds := t.drains + [t.items];
        assert ds[..|ds| - 1] == t.drains;
        assert Flatten(ds) + [] == Flatten(t.drains) + t.items;
    }
  }

  /**
   * What a queue that starts empty holds, and so what the next drain returns,
   * is exactly the items pushed since the previous drain, in order.
   */
  lemma {:induction false} DrainReturnsPushesSinceLastDrain<T>(ops: seq<QueueOp<T>>)
    ensures Replay([], ops).items == PushedSinceDrain(ops)
    ensures |Replay([], ops + [Drain]).drains[|Replay([], ops + [Drain]).drains| - 1]| == |PushedSinceDrain(ops)|
    decreases |ops|
  {
    if ops != [] {
      DrainReturnsPushesSinceLastDrain(ops[..|ops| - 1]);
    }
    assert (ops + [Drain])[..|ops + [Drain]| - 1] == ops;
  }

  /** A drain right after a drain returns nothing. */
  lemma SecondDrainIsEmpty<T>(start: seq<T>, ops: seq<QueueOp<T>>)
    ensures var t := Replay(start, ops + [Drain, Drain]); t.drains[|t.drains| - 1] == [] && t.items == []
  {
    var all := ops + [Drain, Drain];
    assert all[..|all| - 1] == ops + [Drain];
    assert (ops + [Drain])[..|ops + [Drain]| - 1] == ops;
  }
}
