/** The records an administrator edits: hosts, agents and command sets (app/models.py, app/storage.py). */
module Registry {
  import opened Options

  /** How a command is approved before it runs. */
  datatype Mode = Auto | Optimistic | Pessimistic | Strict | OtherMode(name: string)

  /** The `type` field of a command set; only two values have a meaning. */
  datatype SetType = Allow | Deny | OtherType(name: string)

  /** The specification of one named parameter of a command template. */
  datatype ParamSpec = ParamSpec(fallback: Option<string>, maxLength: nat, allowShellChars: bool,
                                 pattern: Option<string>)

  /** One command of a whitelist or a command set. */
  datatype Entry = Entry(cmd: string, approval: Option<Mode>, params: map<string, ParamSpec>)

  datatype CommandSet = CommandSet(id: string, enabled: bool, kind: SetType, commands: seq<Entry>)

  datatype Host = Host(id: string, enabled: bool, dryRun: bool, mode: Mode, timeout: real,
                       sets: seq<string>, whitelist: seq<Entry>, sandboxPath: string)

  /** `autoOffMin` > 0 makes the agent a timed one: it is usable until `enabledUntil`. */
  datatype Agent = Agent(id: string, enabled: bool, autoOffMin: int, enabledUntil: real,
                         sets: seq<string>, allowedHosts: seq<string>)

  /** Enabled and, for a timed agent, inside a live grant. */
  predicate ActiveAt(a: Agent, t: real)
  {
    a.enabled && (a.autoOffMin <= 0 || (a.enabledUntil != 0.0 && t <= a.enabledUntil))
  }
}
