/**
 * The SDK's command channel: each poll fetches the unacknowledged commands
 * for this aggregator, relays each well-formed one to the registered device
 * it names (with the command string), and acknowledges the well-formed ones
 * in one request. The HTTP calls become inputs (the fetched list, or a
 * failure) and outputs (the handler calls made and the ack request sent).
 */
module CommandPoller {
  import opened Wrappers
  import opened Devices

  /** A command that names a device and carries a command string. */
  predicate WellFormed(c: CommandRecord) {
    Truthy(c.deviceName) && Truthy(c.command)
  }

  /** The handler call one command causes: none when malformed or for an unregistered device. */
  function RelayOf(c: CommandRecord, registry: map<string, Device>): (r: seq<HandlerCall>)
    ensures |r| <= 1
    ensures |r| == 1 <==> WellFormed(c) && c.deviceName.value in registry
  {
    if WellFormed(c) && c.deviceName.value in registry
    then [HandlerCall(registry[c.deviceName.value], CommandText(c.command.value))]
    else []
  }

  /** The ack entry one command contributes: its id when well-formed, whether or not the device is known. */
  function AckOf(c: CommandRecord): (r: seq<Option<int>>)
    ensures |r| <= 1
    ensures |r| == 1 <==> WellFormed(c)
  {
    if WellFormed(c) then [c.commandId] else []
  }

  /** The handler calls made for `commands`, in the order received. */
  function Relays(commands: seq<CommandRecord>, registry: map<string, Device>): seq<HandlerCall> {
    if commands == [] then []
    else Relays(commands[..|commands| - 1], registry) + RelayOf(commands[|commands| - 1], registry)
  }

  /** The ids acknowledged for `commands`, in the order received. */
  function AckIds(commands: seq<CommandRecord>): seq<Option<int>> {
    if commands == [] then []
    else AckIds(commands[..|commands| - 1]) + AckOf(commands[|commands| - 1])
  }

  /** The body of the ack POST, `{"command_ids": ids}`. */
  datatype AckRequest = AckRequest(commandIds: seq<Option<int>>)

  /**
   * Whether the handler call of `commands[k]` is where the poll raises: the
   * command is relayed, so `handle_command` is called for it.
   */
  predicate RaisesAt(commands: seq<CommandRecord>, registry: map<string, Device>, raising: Option<nat>) {
    raising.Some? && raising.value < |commands| && RelayOf(commands[raising.value], registry) != []
  }

  /**
   * The handler calls a poll makes: all the relays, or, when a handler
   * raises, the relays up to and including the call that raised.
   */
  function PollCalls(commands: seq<CommandRecord>, registry: map<string, Device>, raising: Option<nat>): seq<HandlerCall> {
    if RaisesAt(commands, registry, raising) then Relays(commands[..raising.value + 1], registry)
    else Relays(commands, registry)
  }

  /** The ack request a poll sends: none when a handler raised or no id was collected. */
  function PollAck(commands: seq<CommandRecord>, registry: map<string, Device>, raising: Option<nat>): Option<AckRequest> {
    if RaisesAt(commands, registry, raising) || AckIds(commands) == [] then None
    else Some(AckRequest(AckIds(commands)))
  }

  /**
   * `_poll_commands` once the command list has been fetched: the handler
   * calls made, and the ack request if one is sent (only for a non-empty id
   * list). `raising` is the index of the command whose `handle_command`
   * raises, if any; the exception leaves the loop before `_ack_commands`.
   */
  method PollCommands(commands: seq<CommandRecord>, registry: map<string, Device>, raising: Option<nat>)
    returns (calls: seq<HandlerCall>, ack: Option<AckRequest>)
    ensures calls == PollCalls(commands, registry, raising)
    ensures ack == PollAck(commands, registry, raising)
  {
    if commands == [] {
      return [], None;
    }
    calls := [];
    var ackIds: seq<Option<int>> := [];
    for i := 0 to |commands|
      invariant calls == Relays(commands[..i], registry)
      invariant ackIds == AckIds(commands[..i])
      invariant !(raising.Some? && raising.value < i && RelayOf(commands[raising.value], registry) != [])
    {
      PollPrefixStep(commands, i, registry);
      var cmd := commands[i];
      var cmdId := cmd.commandId;
      var deviceName := cmd.deviceName;
      var commandStr := cmd.command;
      if !Truthy(deviceName) || !Truthy(commandStr) {
        assert RelayOf(cmd, registry) == [] && AckOf(cmd) == [];
        continue;
      }
      assert AckOf(cmd) == [cmdId];
      if deviceName.value in registry {
        assert RelayOf(cmd, registry) == [HandlerCall(registry[deviceName.value], CommandText(commandStr.value))];
        calls := calls + [HandlerCall(registry[deviceName.value], CommandText(commandStr.value))];
        if raising == Some(i) {
          assert RaisesAt(commands, registry, raising);
          return calls, None;
        }
      } else {
        assert RelayOf(cmd, registry) == [];
      }
      ackIds := ackIds + [cmdId];
    }
    assert commands[..|commands|] == commands;
    assert !RaisesAt(commands, registry, raising);
    ack := if ackIds == [] then None else Some(AckRequest(ackIds));
  }

  /** Taking one more of the fetched commands adds its relay and its ack entry. */
  lemma PollPrefixStep(commands: seq<CommandRecord>, i: nat, registry: map<string, Device>)
    requires i < |commands|
    ensures Relays(commands[..i + 1], registry) == Relays(commands[..i], registry) + RelayOf(commands[i], registry)
    ensures AckIds(commands[..i + 1]) == AckIds(commands[..i]) + AckOf(commands[i])
  {
    assert commands[..i + 1][..i] == commands[..i];
  }

  /**
   * A handler that raises ends the poll: the calls made are the relays up to
   * that command's, its own call last, the later commands are not relayed,
   * and no command of the batch is acknowledged.
   */
  lemma RaisingHandlerAbortsPoll(commands: seq<CommandRecord>, registry: map<string, Device>, k: nat)
    requires k < |commands| && RelayOf(commands[k], registry) != []
    ensures PollAck(commands, registry, Some(k)) == None
    ensures var calls := PollCalls(commands, registry, Some(k));
      && calls != [] && calls[|calls| - 1] == RelayOf(commands[k], registry)[0]
      && Relays(commands, registry) == calls + Relays(commands[k + 1..], registry)
  {
    var front := commands[..k + 1];
    assert front == commands[..k] + [commands[k]];
    RelaysSnoc(commands[..k], commands[k], registry);
    assert commands == front + commands[k + 1..];
    RelaysAppend(front, commands[k + 1..], registry);
  }

  /** Without a raising handler the poll relays every command and acknowledges the well-formed ones. */
  lemma NoRaisePollsAll(commands: seq<CommandRecord>, registry: map<string, Device>)
    ensures PollCalls(commands, registry, None) == Relays(commands, registry)
    ensures PollAck(commands, registry, None) == if AckIds(commands) == [] then None else Some(AckRequest(AckIds(commands)))
  {
  }

  lemma RelaysSnoc(cs: seq<CommandRecord>, c: CommandRecord, registry: map<string, Device>)
    ensures Relays(cs + [c], registry) == Relays(cs, registry) + RelayOf(c, registry)
  {
    assert (cs + [c])[..|cs|] == cs;
  }

  /** Relaying a list is relaying its front and then its back: calls keep the received order. */
  lemma {:induction false} RelaysAppend(a: seq<CommandRecord>, b: seq<CommandRecord>, registry: map<string, Device>)
    ensures Relays(a + b, registry) == Relays(a, registry) + Relays(b, registry)
    ensures AckIds(a + b) == AckIds(a) + AckIds(b)
    decreases |b|
  {
    if b == [] {
      assert a + b == a;
    } else {
      var b' := b[..|b| - 1];
      assert (a + b)[..|a + b| - 1] == a + b';
      RelaysAppend(a, b', registry);
    }
  }

  /** A malformed command causes no call and is not acknowledged. */
  lemma MalformedIsSkipped(c: CommandRecord, registry: map<string, Device>)
    requires !WellFormed(c)
    ensures Relays([c], registry) == [] && AckIds([c]) == []
  {
    assert [c][..0] == [];
  }

  /**
   * In a poll where no handler raises, a well-formed command for a registered
   * device calls that device once, with the command string, and is acknowledged.
   */
  lemma RegisteredIsRelayedAndAcked(c: CommandRecord, registry: map<string, Device>)
    requires WellFormed(c) && c.deviceName.value in registry
    ensures Relays([c], registry) == [HandlerCall(registry[c.deviceName.value], CommandText(c.command.value))]
    ensures AckIds([c]) == [c.commandId]
  {
    assert [c][..0] == [];
  }

  /** A well-formed command for an unknown device causes no call but is still acknowledged. */
  lemma UnregisteredIsAckedOnly(c: CommandRecord, registry: map<string, Device>)
    requires WellFormed(c) && c.deviceName.value !in registry
    ensures Relays([c], registry) == [] && AckIds([c]) == [c.commandId]
  {
    assert [c][..0] == [];
  }

  /**
   * The ack list holds one entry per well-formed command, in received order:
   * entry `k` is the id of the `k`-th well-formed command.
   */
  lemma {:induction false} AckIdsAreWellFormedIds(commands: seq<CommandRecord>)
    ensures |AckIds(commands)| == |WellFormedOnly(commands)|
    ensures forall k :: 0 <= k < |AckIds(commands)| ==> AckIds(commands)[k] == WellFormedOnly(commands)[k].commandId
    decreases |commands|
  {
    if commands != [] {
      AckIdsAreWellFormedIds(commands[..|commands| - 1]);
    }
  }

  /** The well-formed commands of `commands`, in order. */
  function WellFormedOnly(commands: seq<CommandRecord>): (r: seq<CommandRecord>)
    ensures forall c :: c in r <==> c in commands && WellFormed(c)
  {
    if commands == [] then []
    else
      var c := commands[|commands| - 1];
      WellFormedOnly(commands[..|commands| - 1]) + (if WellFormed(c) then [c] else [])
  }

  /** Every handler call is for a well-formed command naming that registered device, and vice versa. */
  lemma {:induction false} RelaysAreRegisteredCommands(commands: seq<CommandRecord>, registry: map<string, Device>)
    ensures forall call :: call in Relays(commands, registry) <==>
      exists c :: c in commands && WellFormed(c) && c.deviceName.value in registry
        && call == HandlerCall(registry[c.deviceName.value], CommandText(c.command.value))
    decreases |commands|
  {
    if commands != [] {
      var front := commands[..|commands| - 1];
      var c := commands[|commands| - 1];
      RelaysAreRegisteredCommands(front, registry);
      assert commands == front + [c];
      assert forall x :: x in commands <==> x in front || x == c;
    }
  }

  /**
   * What one poll met: the GET raised, or it gave the list and the handler of
   * the command at index `raising`, if any, raised.
   */
  datatype PollResponse = PollFailed | Fetched(commands: seq<CommandRecord>, raising: Option<nat>)

  /** The handler calls one poll makes; a failed poll makes none. */
  function CallsOf(response: PollResponse, registry: map<string, Device>): seq<HandlerCall> {
    match response
    case PollFailed => []
    case Fetched(commands, raising) => PollCalls(commands, registry, raising)
  }

  /** The ack requests one poll sends: none for a failed poll, a raising handler or an empty id list. */
  function AcksOf(response: PollResponse, registry: map<string, Device>): seq<AckRequest> {
    match response
    case PollFailed => []
    case Fetched(commands, raising) =>
      var ack := PollAck(commands, registry, raising);
      if ack.Some? then [ack.value] else []
  }

  /** The handler calls made over successive polls. */
  function RunCalls(responses: seq<PollResponse>, registry: map<string, Device>): seq<HandlerCall> {
    if responses == [] then []
    else RunCalls(responses[..|responses| - 1], registry) + CallsOf(responses[|responses| - 1], registry)
  }

  /** The ack requests sent over successive polls. */
  function RunAcks(responses: seq<PollResponse>, registry: map<string, Device>): seq<AckRequest> {
    if responses == [] then []
    else RunAcks(responses[..|responses| - 1], registry) + AcksOf(responses[|responses| - 1], registry)
  }

  /**
   * `run`: one poll per iteration until the stop signal, here one iteration
   * per element of `responses`. A failed poll is swallowed and the loop goes
   * on with the next one.
   */
  method Run(responses: seq<PollResponse>, registry: map<string, Device>)
    returns (calls: seq<HandlerCall>, acks: seq<AckRequest>)
    ensures calls == RunCalls(responses, registry)
    ensures acks == RunAcks(responses, registry)
  {
    calls, acks := [], [];
    var i := 0;
    while i < |responses|
      invariant 0 <= i <= |responses|
      invariant calls == RunCalls(responses[..i], registry)
      invariant acks == RunAcks(responses[..i], registry)
    {
      assert responses[..i + 1][..i] == responses[..i];
      ghost var callsBefore, acksBefore := calls, acks;
      match responses[i] {
        case PollFailed =>
        case Fetched(commands, raising) =>
          var made, ack := PollCommands(commands, registry, raising);
          calls := calls + made;
          if ack.Some? {
            acks := acks + [ack.value];
          }
      }
      assert calls == callsBefore + CallsOf(responses[i], registry);
      assert acks == acksBefore + AcksOf(responses[i], registry);
      i := i + 1;
    }
    assert responses[..i] == responses;
  }

  lemma RunCallsSnoc(rs: seq<PollResponse>, x: PollResponse, registry: map<string, Device>)
    ensures RunCalls(rs + [x], registry) == RunCalls(rs, registry) + CallsOf(x, registry)
  {
    assert (rs + [x])[..|rs|] == rs;
  }

  lemma RunAcksSnoc(rs: seq<PollResponse>, x: PollResponse, registry: map<string, Device>)
    ensures RunAcks(rs + [x], registry) == RunAcks(rs, registry) + AcksOf(x, registry)
  {
    assert (rs + [x])[..|rs|] == rs;
  }

  /** Polling in two stretches makes the calls of the first, then those of the second. */
  lemma {:induction false} RunCallsAppend(a: seq<PollResponse>, b: seq<PollResponse>, registry: map<string, Device>)
    ensures RunCalls(a + b, registry) == RunCalls(a, registry) + RunCalls(b, registry)
    decreases |b|
  {
    if b == [] {
      assert a + b == a;
    } else {
      var b', x := b[..|b| - 1], b[|b| - 1];
      var p, q, r := RunCalls(a, registry), RunCalls(b', registry), CallsOf(x, registry);
      calc {
        RunCalls(a + b, registry);
        == { assert a + b == (a + b') + [x]; RunCallsSnoc(a + b', x, registry); }
        RunCalls(a + b', registry) + r;
        == { RunCallsAppend(a, b', registry); }
        (p + q) + r;
        == { assert (p + q) + r == p + (q + r); }
        p + (q + r);
        == { assert b == b' + [x]; RunCallsSnoc(b', x, registry); }
        p + RunCalls(b, registry);
      }
    }
  }

  /** Polling in two stretches sends the acks of the first, then those of the second. */
  lemma {:induction false} RunAcksAppend(a: seq<PollResponse>, b: seq<PollResponse>, registry: map<string, Device>)
    ensures RunAcks(a + b, registry) == RunAcks(a, registry) + RunAcks(b, registry)
    decreases |b|
  {
    if b == [] {
      assert a + b == a;
    } else {
      var b', x := b[..|b| - 1], b[|b| - 1];
      var p, q, r := RunAcks(a, registry), RunAcks(b', registry), AcksOf(x, registry);
      calc {
        RunAcks(a + b, registry);
        == { assert a + b == (a + b') + [x]; RunAcksSnoc(a + b', x, registry); }
        RunAcks(a + b', registry) + r;
        == { RunAcksAppend(a, b', registry); }
        (p + q) + r;
        == { assert (p + q) + r == p + (q + r); }
        p + (q + r);
        == { assert b == b' + [x]; RunAcksSnoc(b', x, registry); }
        p + RunAcks(b, registry);
      }
    }
  }

  /** A failed poll between two stretches of polling makes no call and does not stop the second stretch. */
  lemma {:induction false} FailedPollIsSwallowed(before: seq<PollResponse>, after: seq<PollResponse>, registry: map<string, Device>)
    ensures RunCalls(before + [PollFailed] + after, registry) == RunCalls(before, registry) + RunCalls(after, registry)
  {
    var failed := [PollFailed];
    assert failed[..0] == [];
    assert RunCalls(failed, registry) == [];
    RunCallsAppend(before, failed, registry);
    RunCallsAppend(before + failed, after, registry);
  }

  /** A failed poll between two stretches of polling sends no ack and does not stop the second stretch. */
  lemma {:induction false} FailedPollSendsNoAck(before: seq<PollResponse>, after: seq<PollResponse>, registry: map<string, Device>)
    ensures RunAcks(before + [PollFailed] + after, registry) == RunAcks(before, registry) + RunAcks(after, registry)
  {
    var failed := [PollFailed];
    assert failed[..0] == [];
    assert RunAcks(failed, registry) == [];
    RunAcksAppend(before, failed, registry);
    RunAcksAppend(before + failed, after, registry);
  }

  /**
   * A batch whose handler raised is not acknowledged, so the server hands the
   * same commands out again: when the next poll fetches them and no handler
   * raises, the commands relayed before the exception are relayed a second
   * time.
   */
  lemma AbortedBatchIsRelayedAgain(commands: seq<CommandRecord>, registry: map<string, Device>, k: nat)
    requires k < |commands| && RelayOf(commands[k], registry) != []
    ensures RunCalls([Fetched(commands, Some(k)), Fetched(commands, None)], registry)
         == Relays(commands[..k + 1], registry) + Relays(commands, registry)
  {
    var first, second := Fetched(commands, Some(k)), Fetched(commands, None);
    RunCallsPair(first, second, registry);
    assert CallsOf(first, registry) == Relays(commands[..k + 1], registry);
  }

  lemma RunCallsPair(first: PollResponse, second: PollResponse, registry: map<string, Device>)
    ensures RunCalls([first, second], registry) == CallsOf(first, registry) + CallsOf(second, registry)
  {
    RunCallsSnoc([], first, registry);
    RunCallsSnoc([first], second, registry);
    assert [] + [first] == [first] && [first] + [second] == [first, second];
  }

  /** Of those two polls, only the second sends an ack request. */
  lemma AbortedBatchIsAckedLater(commands: seq<CommandRecord>, registry: map<string, Device>, k: nat)
    requires k < |commands| && RelayOf(commands[k], registry) != []
    ensures RunAcks([Fetched(commands, Some(k))], registry) == []
    ensures RunAcks([Fetched(commands, Some(k)), Fetched(commands, None)], registry)
         == AcksOf(Fetched(commands, None), registry)
  {
    var first, second := Fetched(commands, Some(k)), Fetched(commands, None);
    RunAcksSnoc([], first, registry);
    RunAcksSnoc([first], second, registry);
    assert [] + [first] == [first] && [first] + [second] == [first, second];
  }
}
