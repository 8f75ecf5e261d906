/**
 * The server's in-memory command queue: the front end enqueues commands for an
 * aggregator's device, the aggregator polls the ones addressed to it and acks
 * them by id, which removes them. The lock makes every method one atomic step,
 * which is how each is modelled.
 */
module CommandQueues {

  /** A command as posted by the front end, before it is numbered. */
  datatype CommandIn = CommandIn(aggregatorName: string, deviceName: string, command: string)

  /** A queued command: the posted fields plus the `command_id` written into it. */
  datatype QueuedCommand = QueuedCommand(commandId: int, aggregatorName: string, deviceName: string, command: string)

  function Numbered(cmd: CommandIn, id: int): (c: QueuedCommand)
    ensures c.commandId == id
    ensures c.aggregatorName == cmd.aggregatorName && c.deviceName == cmd.deviceName && c.command == cmd.command
  {
    QueuedCommand(id, cmd.aggregatorName, cmd.deviceName, cmd.command)
  }

  /** The ids along `q` strictly increase (so every id occurs once). */
  predicate Increasing(q: seq<QueuedCommand>) {
    forall i, j :: 0 <= i < j < |q| ==> q[i].commandId < q[j].commandId
  }

  /** Whether `ack(name, ids)` removes `c`. */
  predicate Matches(c: QueuedCommand, name: string, ids: seq<int>) {
    c.aggregatorName == name && c.commandId in ids
  }

  /** The commands of `q` addressed to aggregator `name`, in queue order. */
  function ForAggregator(q: seq<QueuedCommand>, name: string): (r: seq<QueuedCommand>)
    ensures forall c :: c in r <==> c in q && c.aggregatorName == name
    ensures |r| <= |q|
    ensures Increasing(q) ==> Increasing(r)
  {
    if q == [] then []
    else
      var front, last := q[..|q| - 1], q[|q| - 1];
      assert q == front + [last];
      var rest := ForAggregator(front, name);
      if last.aggregatorName == name then
        LastAboveFront(q);
        rest + [last]
      else rest
  }

  /** The commands of `q` that `ack(name, ids)` keeps, in queue order. */
  function Acked(q: seq<QueuedCommand>, name: string, ids: seq<int>): (r: seq<QueuedCommand>)
    ensures forall c :: c in r <==> c in q && !Matches(c, name, ids)
    ensures Increasing(q) ==> Increasing(r)
  {
    if q == [] then []
    else
      var front, last := q[..|q| - 1], q[|q| - 1];
      assert q == front + [last];
      var rest := Acked(front, name, ids);
      if !Matches(last, name, ids) then
        LastAboveFront(q);
        rest + [last]
      else rest
  }

  /** The commands of `q` that `ack(name, ids)` removes, in queue order. */
  function Matching(q: seq<QueuedCommand>, name: string, ids: seq<int>): (r: seq<QueuedCommand>)
    ensures forall c :: c in r <==> c in q && Matches(c, name, ids)
  {
    if q == [] then []
    else
      var front, last := q[..|q| - 1], q[|q| - 1];
      assert q == front + [last];
      Matching(front, name, ids) + (if Matches(last, name, ids) then [last] else [])
  }

  /** In an increasing queue the last id is above every earlier one. */
  lemma LastAboveFront(q: seq<QueuedCommand>)
    requires q != []
    ensures Increasing(q) ==> Increasing(q[..|q| - 1]) && forall c :: c in q[..|q| - 1] ==> c.commandId < q[|q| - 1].commandId
  {
  }

  class CommandQueue {
    /** The deque, oldest first. */
    var queue: seq<QueuedCommand>
    /** The next value `itertools.count(1)` yields. */
    var nextId: int

    ghost predicate Valid()
      reads this
    {
      1 <= nextId && Increasing(queue) && forall c :: c in queue ==> 1 <= c.commandId < nextId
    }

    constructor ()
      ensures Valid()
      ensures queue == [] && nextId == 1
    {
      queue := [];
      nextId := 1;
    }

    /** `enqueue`: numbers the command with the next counter value and appends it. */
    method Enqueue(cmd: CommandIn) returns (id: int)
      requires Valid()
      modifies this
      ensures Valid()
      ensures id == old(nextId) && nextId == id + 1
      ensures queue == old(queue) + [Numbered(cmd, id)]
    {
      id := nextId;
      nextId := nextId + 1;
      queue := queue + [Numbered(cmd, id)];
    }

    /** `get_unacked_for_aggregator`: the commands for `name`, in queue order; nothing is removed. */
    method GetUnackedForAggregator(name: string) returns (r: seq<QueuedCommand>)
      requires Valid()
      ensures forall c :: c in r <==> c in queue && c.aggregatorName == name
      ensures Increasing(r)
      ensures r == ForAggregator(queue, name)
    {
      r := ForAggregator(queue, name);
    }

    /** `ack`: removes the commands of `name` whose id is among `ids`; the rest keep their order. */
    method Ack(name: string, ids: seq<int>)
      requires Valid()
      modifies this
      ensures Valid()
      ensures nextId == old(nextId)
      ensures queue == Acked(old(queue), name, ids)
    {
      queue := Acked(queue, name, ids);
    }
  }

  /** Acking the same ids again removes nothing more. */
  lemma {:induction false} AckIdempotent(q: seq<QueuedCommand>, name: string, ids: seq<int>)
    ensures Acked(Acked(q, name, ids), name, ids) == Acked(q, name, ids)
  {
    if q != [] {
      var front, last := q[..|q| - 1], q[|q| - 1];
      AckIdempotent(front, name, ids);
      var once := Acked(front, name, ids);
      if !Matches(last, name, ids) {
        var r := once + [last];
        assert r[..|r| - 1] == once;
      }
    }
  }

  /** An ack for one aggregator leaves every other aggregator's view untouched, whatever the ids. */
  lemma {:induction false} AckKeepsOtherAggregators(q: seq<QueuedCommand>, name: string, ids: seq<int>, other: string)
    requires other != name
    ensures ForAggregator(Acked(q, name, ids), other) == ForAggregator(q, other)
  {
    if q != [] {
      var front, last := q[..|q| - 1], q[|q| - 1];
      AckKeepsOtherAggregators(front, name, ids, other);
      var once := Acked(front, name, ids);
      if !Matches(last, name, ids) {
        var r := once + [last];
        assert r[..|r| - 1] == once;
      }
    }
  }

  /** The queue shrinks by exactly the number of matching entries. */
  lemma {:induction false} AckSize(q: seq<QueuedCommand>, name: string, ids: seq<int>)
    ensures |Acked(q, name, ids)| == |q| - |Matching(q, name, ids)|
  {
    if q != [] {
      AckSize(q[..|q| - 1], name, ids);
    }
  }

  /** Ids that match nothing are ignored: the queue is left as it was. */
  lemma {:induction false} AckUnknownIdsIgnored(q: seq<QueuedCommand>, name: string, ids: seq<int>)
    requires forall c :: c in q ==> !Matches(c, name, ids)
    ensures Acked(q, name, ids) == q
  {
    if q != [] {
      var front := q[..|q| - 1];
      assert q == front + [q[|q| - 1]];
      AckUnknownIdsIgnored(front, name, ids);
    }
  }

  /** A fresh queue numbers its commands 1, 2, 3 and hands to each aggregator only its own. */
  method NumberingFromOne(a: CommandIn, b: CommandIn, c: CommandIn)
    returns (ids: seq<int>, polled: seq<QueuedCommand>)
    requires a.aggregatorName == c.aggregatorName != b.aggregatorName
    ensures ids == [1, 2, 3]
    ensures polled == [Numbered(a, 1), Numbered(c, 3)]
  {
    var cq := new CommandQueue();
    var i1 := cq.Enqueue(a);
    var i2 := cq.Enqueue(b);
    var i3 := cq.Enqueue(c);
    ids := [i1, i2, i3];
    polled := cq.GetUnackedForAggregator(a.aggregatorName);
    var name := a.aggregatorName;
    ForAggregatorSnoc([], Numbered(a, 1), name);
    ForAggregatorSnoc([Numbered(a, 1)], Numbered(b, 2), name);
    ForAggregatorSnoc([Numbered(a, 1), Numbered(b, 2)], Numbered(c, 3), name);
  }

  /** Filtering a queue with one more command at its end. */
  lemma ForAggregatorSnoc(q: seq<QueuedCommand>, x: QueuedCommand, name: string)
    ensures ForAggregator(q + [x], name) == ForAggregator(q, name) + (if x.aggregatorName == name then [x] else [])
  {
    assert (q + [x])[..|q|] == q;
  }
}
