/**
 * The device interface as the relay layer sees it. A device is known by its
 * declared name; its `handle_command` is opaque, so the model records each
 * call made to it (which device, with which argument) instead of running it.
 */
module Devices {
  import opened Wrappers

  /** A device object: its `name` and an identity for the object itself. */
  datatype Device = Device(name: string, id: nat)

  /**
   * A command as a JSON object from the server. Each field may be absent,
   * as `dict.get` allows.
   */
  datatype CommandRecord = CommandRecord(commandId: Option<int>, deviceName: Option<string>, command: Option<string>)

  /** What `handle_command` is given: the command string, or the whole command object. */
  datatype CommandArg = CommandText(text: string) | WholeCommand(record: CommandRecord)

  /** One call `device.handle_command(arg)`. */
  datatype HandlerCall = HandlerCall(device: Device, arg: CommandArg)

  /** Python truthiness of an optional string field: present and not empty. */
  predicate Truthy(s: Option<string>) {
    s.Some? && s.value != ""
  }
}
