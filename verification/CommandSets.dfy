/** Which commands a host and an agent may use (app/storage.py: command sets and the verdict on a command). */
module CommandSets {
  import opened Options
  import opened Registry

  /** What `get_command_set` finds, by set id. */
  type Sets = map<string, CommandSet>

  function Cmds(entries: seq<Entry>): set<string>
  {
    set e | e in entries :: e.cmd
  }

  /** An enabled set of the given type. */
  predicate Counts(sets: Sets, sid: string, kind: SetType)
  {
    sid in sets && sets[sid].enabled && sets[sid].kind == kind
  }

  /** The commands of all enabled sets of one type in a list of set ids. */
  function Collected(sets: Sets, ids: seq<string>, kind: SetType): set<string>
  {
    set sid, c | sid in ids && Counts(sets, sid, kind) && c in Cmds(sets[sid].commands) :: c
  }

  lemma CollectedGrows(sets: Sets, ids: seq<string>, i: nat, kind: SetType)
    requires i < |ids|
    ensures Collected(sets, ids[..i + 1], kind) == Collected(sets, ids[..i], kind)
              + if Counts(sets, ids[i], kind) then Cmds(sets[ids[i]].commands) else {}
  {
    assert ids[..i + 1] == ids[..i] + [ids[i]];
  }

  method CollectCommands(sets: Sets, ids: seq<string>, kind: SetType) returns (cmds: set<string>)
    ensures cmds == Collected(sets, ids, kind)
  {
    cmds := {};
    for i := 0 to |ids|
      invariant cmds == Collected(sets, ids[..i], kind)
    {
      CollectedGrows(sets, ids, i, kind);
      if ids[i] !in sets || !sets[ids[i]].enabled || sets[ids[i]].kind != kind {
        continue;
      }
      var commands := sets[ids[i]].commands;
      ghost var before := cmds;
      for j := 0 to |commands|
        invariant cmds == before + Cmds(commands[..j])
      {
        cmds := cmds + {commands[j].cmd};
        assert commands[..j + 1] == commands[..j] + [commands[j]];
      }
      assert commands[..|commands|] == commands;
    }
    assert ids[..|ids|] == ids;
  }

  function HostAllow(sets: Sets, host: Host): set<string>
  {
    Cmds(host.whitelist) + Collected(sets, host.sets, Allow)
  }

  predicate HasAllowSet(sets: Sets, ids: seq<string>)
  {
    exists sid | sid in ids :: Counts(sets, sid, Allow)
  }

  /** host_allow, intersected with agent_allow when the agent has an enabled allow-set. */
  function EffectiveAllow(sets: Sets, host: Host, agent: Option<Agent>): set<string>
  {
    if agent.Some? && HasAllowSet(sets, agent.value.sets)
    then HostAllow(sets, host) * Collected(sets, agent.value.sets, Allow)
    else HostAllow(sets, host)
  }

  /** host_deny united with agent_deny. */
  function Denied(sets: Sets, host: Host, agent: Option<Agent>): set<string>
  {
    Collected(sets, host.sets, Deny) + if agent.Some? then Collected(sets, agent.value.sets, Deny) else {}
  }

  /** The documented rule: allowed and not denied. */
  predicate Authorized(sets: Sets, host: Host, agent: Option<Agent>, cmd: string)
  {
    cmd in EffectiveAllow(sets, host, agent) - Denied(sets, host, agent)
  }

  // ----- the rule on the records -----

  predicate HasEntry(entries: seq<Entry>, cmd: string)
  {
    exists e :: e in entries && e.cmd == cmd
  }

  /** An enabled set of the type, among those with these ids, has an entry for the command. */
  predicate SetLists(sets: Sets, ids: seq<string>, kind: SetType, cmd: string)
  {
    exists sid :: sid in ids && sid in sets && sets[sid].enabled && sets[sid].kind == kind
                  && HasEntry(sets[sid].commands, cmd)
  }

  lemma CollectedAreListed(sets: Sets, ids: seq<string>, kind: SetType, cmd: string)
    ensures cmd in Collected(sets, ids, kind) <==> SetLists(sets, ids, kind, cmd)
  {
    if cmd in Collected(sets, ids, kind) {
      var sid :| sid in ids && Counts(sets, sid, kind) && cmd in Cmds(sets[sid].commands);
      assert HasEntry(sets[sid].commands, cmd);
    }
    if SetLists(sets, ids, kind, cmd) {
      var sid :| sid in ids && sid in sets && sets[sid].enabled && sets[sid].kind == kind
                 && HasEntry(sets[sid].commands, cmd);
      assert cmd in Cmds(sets[sid].commands);
    }
  }

  lemma HostAllowIsListed(sets: Sets, host: Host, cmd: string)
    ensures cmd in HostAllow(sets, host) <==> HasEntry(host.whitelist, cmd) || SetLists(sets, host.sets, Allow, cmd)
  {
    CollectedAreListed(sets, host.sets, Allow, cmd);
    assert cmd in Cmds(host.whitelist) <==> HasEntry(host.whitelist, cmd);
  }

  /** Every deny-set counts, the host's and the agent's. */
  lemma DeniedIsListed(sets: Sets, host: Host, agent: Option<Agent>, cmd: string)
    ensures cmd in Denied(sets, host, agent) <==>
            || SetLists(sets, host.sets, Deny, cmd)
            || (agent.Some? && SetLists(sets, agent.value.sets, Deny, cmd))
  {
    CollectedAreListed(sets, host.sets, Deny, cmd);
    if agent.Some? {
      CollectedAreListed(sets, agent.value.sets, Deny, cmd);
    }
  }

  /**
   * A command is authorized exactly if the host lists it, in its own entries or an enabled allow-set, no enabled deny-set
   * of host or agent does, and an agent with an enabled allow-set has it in one.
   */
  lemma AuthorizedExactly(sets: Sets, host: Host, agent: Option<Agent>, cmd: string)
    ensures Authorized(sets, host, agent, cmd) <==>
            && (HasEntry(host.whitelist, cmd) || SetLists(sets, host.sets, Allow, cmd))
            && !SetLists(sets, host.sets, Deny, cmd)
            && (agent.Some? ==> !SetLists(sets, agent.value.sets, Deny, cmd))
            && (agent.Some? && (exists sid :: sid in agent.value.sets && sid in sets && sets[sid].enabled
                                              && sets[sid].kind == Allow)
                ==> SetLists(sets, agent.value.sets, Allow, cmd))
  {
    HostAllowIsListed(sets, host, cmd);
    DeniedIsListed(sets, host, agent, cmd);
    if agent.Some? {
      CollectedAreListed(sets, agent.value.sets, Allow, cmd);
      assert HasAllowSet(sets, agent.value.sets) <==>
             exists sid :: sid in agent.value.sets && sid in sets && sets[sid].enabled && sets[sid].kind == Allow by {
        assert forall sid :: Counts(sets, sid, Allow) <==> sid in sets && sets[sid].enabled && sets[sid].kind == Allow;
      }
    }
  }

  datatype Verdict = Allowed | NotOnHost | DeniedByHost | DeniedByAgent | NotForAgent

  /** The verdict in terms of the records: the first cause that applies. */
  ghost predicate VerdictFits(v: Verdict, sets: Sets, host: Host, agent: Option<Agent>, cmd: string)
  {
    var onHost := HasEntry(host.whitelist, cmd) || SetLists(sets, host.sets, Allow, cmd);
    var byHost := SetLists(sets, host.sets, Deny, cmd);
    var byAgent := agent.Some? && SetLists(sets, agent.value.sets, Deny, cmd);
    var restricted := agent.Some? && exists sid :: sid in agent.value.sets && sid in sets && sets[sid].enabled
                                                   && sets[sid].kind == Allow;
    match v
    case NotOnHost => !onHost
    case DeniedByHost => onHost && byHost
    case DeniedByAgent => onHost && !byHost && byAgent
    case NotForAgent => onHost && !byHost && !byAgent && restricted && !SetLists(sets, agent.value.sets, Allow, cmd)
    case Allowed => onHost && !byHost && !byAgent && (restricted ==> SetLists(sets, agent.value.sets, Allow, cmd))
  }

  /** The staged decision procedure; its verdict is the documented rule, and each refusal names its cause. */
  method CheckCommandAuthorized(sets: Sets, host: Host, agent: Option<Agent>, cmd: string)
    returns (v: Verdict)
    ensures v.Allowed? <==> Authorized(sets, host, agent, cmd)
    ensures VerdictFits(v, sets, host, agent, cmd)
  {
    AuthorizedExactly(sets, host, agent, cmd);
    HostAllowIsListed(sets, host, cmd);
    CollectedAreListed(sets, host.sets, Deny, cmd);
    var own := set e | e in host.whitelist :: e.cmd;
    var fromSets := CollectCommands(sets, host.sets, Allow);
    if cmd !in own + fromSets {
      return NotOnHost;
    }
    var hostDeny := CollectCommands(sets, host.sets, Deny);
    if cmd in hostDeny {
      return DeniedByHost;
    }
    if agent.Some? {
      CollectedAreListed(sets, agent.value.sets, Deny, cmd);
      CollectedAreListed(sets, agent.value.sets, Allow, cmd);
      var agentDeny := CollectCommands(sets, agent.value.sets, Deny);
      if cmd in agentDeny {
        return DeniedByAgent;
      }
      if exists sid | sid in agent.value.sets :: Counts(sets, sid, Allow) {
        var agentAllow := CollectCommands(sets, agent.value.sets, Allow);
        if cmd !in agentAllow {
          return NotForAgent;
        }
      }
    }
    return Allowed;
  }

  // ----- the effective whitelist: own entries first, then those of the allow-sets not seen before -----

  function AppendNew(acc: seq<Entry>, commands: seq<Entry>): seq<Entry>
    decreases |commands|
  {
    if commands == [] then acc
    else AppendNew(if commands[0].cmd in Cmds(acc) then acc else acc + [commands[0]], commands[1..])
  }

  function EffectiveFrom(sets: Sets, acc: seq<Entry>, ids: seq<string>): seq<Entry>
    decreases |ids|
  {
    if ids == [] then acc
    else EffectiveFrom(sets, if Counts(sets, ids[0], Allow) then AppendNew(acc, sets[ids[0]].commands) else acc, ids[1..])
  }

  function EffectiveWhitelist(sets: Sets, host: Host): seq<Entry>
  {
    EffectiveFrom(sets, host.whitelist, host.sets)
  }

  method GetEffectiveWhitelist(sets: Sets, host: Host) returns (result: seq<Entry>)
    ensures result == EffectiveWhitelist(sets, host)
  {
    result := host.whitelist;
    var seen := set e | e in result :: e.cmd;
    for i := 0 to |host.sets|
      invariant seen == Cmds(result)
      invariant EffectiveFrom(sets, result, host.sets[i..]) == EffectiveWhitelist(sets, host)
    {
      var sid := host.sets[i];
      assert host.sets[i..][1..] == host.sets[i + 1..];
      if sid !in sets || !sets[sid].enabled || sets[sid].kind != Allow {
        continue;
      }
      var commands := sets[sid].commands;
      ghost var before := result;
      for j := 0 to |commands|
        invariant seen == Cmds(result)
        invariant AppendNew(result, commands[j..]) == AppendNew(before, commands)
      {
        assert commands[j..][1..] == commands[j + 1..];
        if commands[j].cmd !in seen {
          result := result + [commands[j]];
          seen := seen + {commands[j].cmd};
        }
      }
    }
  }

  /** The first entry for a command, if there is one. */
  function FirstEntry(entries: seq<Entry>, cmd: string): (r: Option<Entry>)
    ensures r.Some? <==> cmd in Cmds(entries)
    ensures r.Some? ==> r.value in entries && r.value.cmd == cmd
  {
    if entries == [] then None
    else if entries[0].cmd == cmd then Some(entries[0])
    else
      assert entries == [entries[0]] + entries[1..];
      FirstEntry(entries[1..], cmd)
  }

  function WhitelistEntry(sets: Sets, host: Host, cmd: string): Option<Entry>
  {
    FirstEntry(EffectiveWhitelist(sets, host), cmd)
  }

  method FindWhitelistEntry(sets: Sets, host: Host, cmd: string) returns (r: Option<Entry>)
    ensures r == WhitelistEntry(sets, host, cmd)
  {
    var entries := GetEffectiveWhitelist(sets, host);
    for i := 0 to |entries|
      invariant FirstEntry(entries, cmd) == FirstEntry(entries[i..], cmd)
    {
      assert entries[i..][1..] == entries[i + 1..];
      if entries[i].cmd == cmd {
        return Some(entries[i]);
      }
    }
    return None;
  }

  lemma {:induction false} AppendNewCmds(acc: seq<Entry>, commands: seq<Entry>)
    ensures Cmds(AppendNew(acc, commands)) == Cmds(acc) + Cmds(commands)
    ensures acc <= AppendNew(acc, commands)
    decreases |commands|
  {
    if commands != [] {
      var next := if commands[0].cmd in Cmds(acc) then acc else acc + [commands[0]];
      AppendNewCmds(next, commands[1..]);
      assert commands == [commands[0]] + commands[1..];
    }
  }

  lemma {:induction false} EffectiveFromCmds(sets: Sets, acc: seq<Entry>, ids: seq<string>)
    ensures Cmds(EffectiveFrom(sets, acc, ids)) == Cmds(acc) + Collected(sets, ids, Allow)
    ensures acc <= EffectiveFrom(sets, acc, ids)
    decreases |ids|
  {
    if ids != [] {
      var next := if Counts(sets, ids[0], Allow) then AppendNew(acc, sets[ids[0]].commands) else acc;
      if Counts(sets, ids[0], Allow) {
        AppendNewCmds(acc, sets[ids[0]].commands);
      }
      EffectiveFromCmds(sets, next, ids[1..]);
      assert ids == [ids[0]] + ids[1..];
    }
  }

  /** The whitelist shown for a host and the one the verdict uses hold the same commands, own entries first. */
  lemma EffectiveWhitelistIsHostAllow(sets: Sets, host: Host)
    ensures Cmds(EffectiveWhitelist(sets, host)) == HostAllow(sets, host)
    ensures host.whitelist <= EffectiveWhitelist(sets, host)
  {
    EffectiveFromCmds(sets, host.whitelist, host.sets);
  }

  /** From position `n` on, each entry is for a command that none before it is for. */
  predicate NewFrom(entries: seq<Entry>, n: nat)
  {
    forall i, j :: n <= j < |entries| && 0 <= i < j ==> entries[i].cmd != entries[j].cmd
  }

  lemma {:induction false} AppendNewIsNew(acc: seq<Entry>, commands: seq<Entry>, n: nat)
    requires n <= |acc| && NewFrom(acc, n)
    ensures NewFrom(AppendNew(acc, commands), n)
    decreases |commands|
  {
    if commands != [] {
      var next := if commands[0].cmd in Cmds(acc) then acc else acc + [commands[0]];
      assert forall i :: 0 <= i < |acc| ==> acc[i] in acc;
      AppendNewIsNew(next, commands[1..], n);
    }
  }

  lemma {:induction false} EffectiveFromIsNew(sets: Sets, acc: seq<Entry>, ids: seq<string>, n: nat)
    requires n <= |acc| && NewFrom(acc, n)
    ensures NewFrom(EffectiveFrom(sets, acc, ids), n)
    decreases |ids|
  {
    if ids != [] {
      var next := if Counts(sets, ids[0], Allow) then AppendNew(acc, sets[ids[0]].commands) else acc;
      if Counts(sets, ids[0], Allow) {
        AppendNewIsNew(acc, sets[ids[0]].commands, n);
        AppendNewCmds(acc, sets[ids[0]].commands);
      }
      EffectiveFromIsNew(sets, next, ids[1..], n);
    }
  }

  /** The whitelist shown for a host is its own, followed by one entry for each command it does not have yet. */
  lemma SetEntriesAreNew(sets: Sets, host: Host)
    ensures NewFrom(EffectiveWhitelist(sets, host), |host.whitelist|)
  {
    EffectiveFromIsNew(sets, host.whitelist, host.sets, |host.whitelist|);
  }

  /** The first of these entries that is for the command. */
  predicate IsFirst(entries: seq<Entry>, cmd: string, e: Entry)
  {
    exists i :: 0 <= i < |entries| && entries[i] == e && e.cmd == cmd && forall j :: 0 <= j < i ==> entries[j].cmd != cmd
  }

  lemma {:induction false} FirstEntryIsFirst(entries: seq<Entry>, cmd: string)
    ensures FirstEntry(entries, cmd).Some? ==> IsFirst(entries, cmd, FirstEntry(entries, cmd).value)
  {
    if entries != [] {
      if entries[0].cmd == cmd {
        assert IsFirst(entries, cmd, entries[0]);
      } else {
        FirstEntryIsFirst(entries[1..], cmd);
        var r := FirstEntry(entries[1..], cmd);
        if r.Some? {
          var i :| 0 <= i < |entries[1..]| && entries[1..][i] == r.value
                   && forall j :: 0 <= j < i ==> entries[1..][j].cmd != cmd;
          assert entries[i + 1] == r.value;
          assert forall j :: 0 < j < i + 1 ==> entries[j] == entries[1..][j - 1];
        }
      }
    }
  }

  lemma {:induction false} FirstInAppended(a: seq<Entry>, b: seq<Entry>, cmd: string)
    ensures FirstEntry(a + b, cmd) == if FirstEntry(a, cmd).Some? then FirstEntry(a, cmd) else FirstEntry(b, cmd)
  {
    if a == [] {
      assert a + b == b;
    } else {
      assert (a + b)[1..] == a[1..] + b;
      FirstInAppended(a[1..], b, cmd);
    }
  }

  lemma {:induction false} FirstInAppendNew(acc: seq<Entry>, commands: seq<Entry>, cmd: string)
    ensures FirstEntry(AppendNew(acc, commands), cmd)
            == if FirstEntry(acc, cmd).Some? then FirstEntry(acc, cmd) else FirstEntry(commands, cmd)
    decreases |commands|
  {
    if commands != [] {
      var next := if commands[0].cmd in Cmds(acc) then acc else acc + [commands[0]];
      FirstInAppendNew(next, commands[1..], cmd);
      FirstInAppended(acc, [commands[0]], cmd);
    }
  }

  /** The first of the sets, in the order of their ids, that counts as an allow-set and lists the command. */
  predicate IsFirstSet(sets: Sets, ids: seq<string>, cmd: string, k: nat)
  {
    && k < |ids| && ids[k] in sets && sets[ids[k]].enabled && sets[ids[k]].kind == Allow
    && HasEntry(sets[ids[k]].commands, cmd) && !SetLists(sets, ids[..k], Allow, cmd)
  }

  lemma FirstSetBehind(sets: Sets, ids: seq<string>, cmd: string, j: nat)
    requires ids != [] && IsFirstSet(sets, ids[1..], cmd, j)
    requires Counts(sets, ids[0], Allow) ==> FirstEntry(sets[ids[0]].commands, cmd).None?
    ensures IsFirstSet(sets, ids, cmd, j + 1) && ids[j + 1] == ids[1..][j]
  {
    assert ids[..j + 1] == ids[..1] + ids[1..][..j];
    ListsOneMore(sets, ids[..1], ids[1..][..j], cmd);
  }

  lemma FirstSetInFront(sets: Sets, ids: seq<string>, cmd: string)
    requires ids != [] && Counts(sets, ids[0], Allow) && FirstEntry(sets[ids[0]].commands, cmd).Some?
    ensures IsFirstSet(sets, ids, cmd, 0)
  {
    var e := FirstEntry(sets[ids[0]].commands, cmd).value;
    assert e in sets[ids[0]].commands && e.cmd == cmd;
  }

  /** `r` is the entry there was before, or else the first entry of the first set, number `k`, that lists the command. */
  predicate FirstOf(sets: Sets, ids: seq<string>, cmd: string, before: Option<Entry>, r: Option<Entry>, k: nat)
  {
    if before.Some? then r == before
    else if r.Some? then IsFirstSet(sets, ids, cmd, k) && r == FirstEntry(sets[ids[k]].commands, cmd)
    else !SetLists(sets, ids, Allow, cmd)
  }

  function FirstOfSet(sets: Sets, sid: string, cmd: string): Option<Entry>
  {
    if Counts(sets, sid, Allow) then FirstEntry(sets[sid].commands, cmd) else None
  }

  lemma FirstOfOneMore(sets: Sets, ids: seq<string>, cmd: string, before: Option<Entry>, r: Option<Entry>, j: nat)
    returns (k: nat)
    requires ids != []
    requires FirstOf(sets, ids[1..], cmd, if before.Some? then before else FirstOfSet(sets, ids[0], cmd), r, j)
    ensures FirstOf(sets, ids, cmd, before, r, k)
  {
    k := 0;
    assert ids == ids[..1] + ids[1..];
    ListsOneMore(sets, ids[..1], ids[1..], cmd);
    if FirstOfSet(sets, ids[0], cmd).Some? {
      FirstSetInFront(sets, ids, cmd);
    } else if before.None? && r.Some? {
      FirstSetBehind(sets, ids, cmd, j);
      k := j + 1;
    }
  }

  lemma {:induction false} FirstInEffective(sets: Sets, acc: seq<Entry>, ids: seq<string>, cmd: string) returns (k: nat)
    ensures FirstOf(sets, ids, cmd, FirstEntry(acc, cmd), FirstEntry(EffectiveFrom(sets, acc, ids), cmd), k)
    decreases |ids|
  {
    k := 0;
    if ids != [] {
      var next := if Counts(sets, ids[0], Allow) then AppendNew(acc, sets[ids[0]].commands) else acc;
      if Counts(sets, ids[0], Allow) {
        FirstInAppendNew(acc, sets[ids[0]].commands, cmd);
      }
      var j := FirstInEffective(sets, next, ids[1..], cmd);
      k := FirstOfOneMore(sets, ids, cmd, FirstEntry(acc, cmd), FirstEntry(EffectiveFrom(sets, acc, ids), cmd), j);
    }
  }

  lemma ListsOneMore(sets: Sets, one: seq<string>, rest: seq<string>, cmd: string)
    requires |one| == 1
    ensures SetLists(sets, one + rest, Allow, cmd) <==>
            || (Counts(sets, one[0], Allow) && FirstEntry(sets[one[0]].commands, cmd).Some?)
            || SetLists(sets, rest, Allow, cmd)
  {
    CollectedAreListed(sets, one + rest, Allow, cmd);
    CollectedAreListed(sets, rest, Allow, cmd);
    assert forall sid :: sid in one + rest <==> sid == one[0] || sid in rest;
  }

  /**
   * The entry that decides about parameters and approval: the first of the host's own entries for the command, and
   * without one the first in the first enabled allow-set that lists it; none exactly if nobody lists it.
   */
  lemma EntryExactly(sets: Sets, host: Host, cmd: string) returns (k: nat)
    ensures var r := WhitelistEntry(sets, host, cmd);
            && (r.None? <==> !HasEntry(host.whitelist, cmd) && !SetLists(sets, host.sets, Allow, cmd))
            && (r.Some? ==>
                  if HasEntry(host.whitelist, cmd) then IsFirst(host.whitelist, cmd, r.value)
                  else IsFirstSet(sets, host.sets, cmd, k) && IsFirst(sets[host.sets[k]].commands, cmd, r.value))
  {
    k := FirstInEffective(sets, host.whitelist, host.sets, cmd);
    FirstEntryIsFirst(host.whitelist, cmd);
    EffectiveWhitelistIsHostAllow(sets, host);
    HostAllowIsListed(sets, host, cmd);
    if !HasEntry(host.whitelist, cmd) && k < |host.sets| && host.sets[k] in sets {
      FirstEntryIsFirst(sets[host.sets[k]].commands, cmd);
    }
  }

  /** An authorized command always has its whitelist entry: the executor's fallback entry is dead for agents. */
  lemma AuthorizedHasEntry(sets: Sets, host: Host, agent: Option<Agent>, cmd: string)
    requires Authorized(sets, host, agent, cmd)
    ensures WhitelistEntry(sets, host, cmd).Some? && WhitelistEntry(sets, host, cmd).value.cmd == cmd
  {
    EffectiveWhitelistIsHostAllow(sets, host);
  }

  /**
   * The second list denies at least as much as the first and allows at most as much, set by set: deny-sets stay and
   * may grow, allow-sets may shrink, be disabled or go.
   */
  predicate Tighter(sets: Sets, ids: seq<string>, sets': Sets, ids': seq<string>)
  {
    && (forall sid :: sid in ids && Counts(sets, sid, Deny) ==>
          sid in ids' && Counts(sets', sid, Deny) && Cmds(sets[sid].commands) <= Cmds(sets'[sid].commands))
    && (forall sid :: sid in ids' && Counts(sets', sid, Allow) ==>
          sid in ids && Counts(sets, sid, Allow) && Cmds(sets'[sid].commands) <= Cmds(sets[sid].commands))
  }

  lemma TighterCollects(sets: Sets, ids: seq<string>, sets': Sets, ids': seq<string>)
    requires Tighter(sets, ids, sets', ids')
    ensures Collected(sets, ids, Deny) <= Collected(sets', ids', Deny)
    ensures Collected(sets', ids', Allow) <= Collected(sets, ids, Allow)
  {
    forall c | c in Collected(sets, ids, Deny)
      ensures c in Collected(sets', ids', Deny)
    {
      var sid :| sid in ids && Counts(sets, sid, Deny) && c in Cmds(sets[sid].commands);
      assert c in Cmds(sets'[sid].commands);
    }
    forall c | c in Collected(sets', ids', Allow)
      ensures c in Collected(sets, ids, Allow)
    {
      var sid :| sid in ids' && Counts(sets', sid, Allow) && c in Cmds(sets'[sid].commands);
      assert c in Cmds(sets[sid].commands);
    }
  }

  /**
   * Attaching deny-sets anywhere or adding to them, detaching, disabling or cutting allow-sets, dropping own entries,
   * and acting through an agent instead of none never enable a command, as long as an agent that had an allow-set
   * keeps one.
   */
  lemma TighteningNeverEnables(sets: Sets, host: Host, agent: Option<Agent>,
                               sets': Sets, host': Host, agent': Option<Agent>, cmd: string)
    requires Cmds(host'.whitelist) <= Cmds(host.whitelist) && Tighter(sets, host.sets, sets', host'.sets)
    requires agent.Some? ==>
               && agent'.Some? && Tighter(sets, agent.value.sets, sets', agent'.value.sets)
               && (HasAllowSet(sets, agent.value.sets) ==> HasAllowSet(sets', agent'.value.sets))
    requires Authorized(sets', host', agent', cmd)
    ensures Authorized(sets, host, agent, cmd)
  {
    TighterCollects(sets, host.sets, sets', host'.sets);
    assert HostAllow(sets', host') <= HostAllow(sets, host);
    if agent.Some? {
      TighterCollects(sets, agent.value.sets, sets', agent'.value.sets);
    }
  }

  function Disabled(sets: Sets, sid: string): Sets
    requires sid in sets
  {
    sets[sid := sets[sid].(enabled := false)]
  }

  /**
   * Disabling an allow-set can enable a command. It does so exactly when the set was the agent's last enabled
   * allow-set, and then for what the host still allows, nobody denies, and the agent could not use before.
   */
  lemma DisablingEnablesExactly(sets: Sets, sid: string, host: Host, agent: Agent, cmd: string)
    requires Counts(sets, sid, Allow) && sid in agent.sets
    ensures !Authorized(sets, host, Some(agent), cmd) && Authorized(Disabled(sets, sid), host, Some(agent), cmd)
            <==> && (forall other :: other in agent.sets && Counts(sets, other, Allow) ==> other == sid)
                 && cmd in HostAllow(Disabled(sets, sid), host) - Denied(sets, host, Some(agent))
                 && cmd !in Cmds(sets[sid].commands)
  {
    var sets' := Disabled(sets, sid);
    assert forall x, k :: Counts(sets', x, k) <==> Counts(sets, x, k) && x != sid;
    assert HostAllow(sets', host) <= HostAllow(sets, host);
    assert Denied(sets', host, Some(agent)) == Denied(sets, host, Some(agent));
    assert HasAllowSet(sets, agent.sets);
    if HasAllowSet(sets', agent.sets) {
      assert Collected(sets', agent.sets, Allow) <= Collected(sets, agent.sets, Allow);
    }
  }
}
