/**
 * What each stage of the pipeline asks for, on the records an administrator edits (app/mcp_transport.py, app/main.py: the
 * callers; app/executor.py: execute_command): a request ends at a stage exactly for the causes listed here.
 */
module AdmissionStages {
  import opened Options
  import opened Registry
  import opened CommandSets
  import opened DenyRules
  import opened Templates
  import opened Params
  import opened ValuePolicy
  import opened Executor

  // ----- the caller -----

  /** Switched on and, if it is a timed agent, before the end of its grant. */
  predicate Usable(a: Agent, t: real)
  {
    a.enabled && (a.autoOffMin > 0 ==> a.enabledUntil != 0.0 && t <= a.enabledUntil)
  }

  predicate HasUsable(agents: map<string, Agent>, id: string, t: real)
  {
    id in agents && Usable(agents[id], t)
  }

  predicate FromConsole(req: Request)
  {
    req.Exec? && req.channel == Console
  }

  predicate FromRest(req: Request)
  {
    req.Exec? && req.channel == Rest
  }

  /** Over MCP: a field left empty, a token whose agent was not usable when it was accepted. */
  predicate BadCall(req: Request)
  {
    || req.hostId == ""
    || (req.Exec? && req.command == "")
    || (req.WriteFile? && (req.filename == "" || req.payload == ""))
    || (req.agentId != "" && !HasUsable(req.accepted.agents, req.agentId, req.accepted.at))
  }

  /** Over MCP: the agent is not usable any more, or has a list of hosts that this one is not on. */
  predicate BadAgent(env: Env, now: real, req: Request)
  {
    req.agentId != "" && req.agentId in env.agents &&
    var agent := env.agents[req.agentId];
    !Usable(agent, now) || (agent.allowedHosts != [] && req.hostId !in agent.allowedHosts)
  }

  /** A caller turns a request away for one of these causes, and for no other. */
  lemma CallerRefusesExactly(env: Env, now: real, req: Request)
    ensures Admit(env, now, req) == Blocked(Caller) <==>
            || req.hostId !in env.hosts
            || (!FromConsole(req) && !env.hosts[req.hostId].enabled)
            || (FromConsole(req) && req.agentId != "")
            || (FromRest(req) && req.agentId != "__global__" && !HasUsable(env.agents, req.agentId, now))
            || (!FromConsole(req) && !FromRest(req) && (BadCall(req) || BadAgent(env, now, req)))
  {
    assert forall a, t :: ActiveAt(a, t) <==> Usable(a, t);
    CallerStage(env, now, req);
  }

  lemma CallerStage(env: Env, now: real, req: Request)
    ensures Admit(env, now, req) == Blocked(Caller) <==> !CallerAccepts(env, now, req)
  {
  }

  /** An agent with a list of hosts gets nothing on any other host over MCP: neither a command nor a file. */
  lemma StaysOnAllowedHosts(env: Env, now: real, req: Request)
    requires !FromConsole(req) && !FromRest(req) && req.agentId != "" && req.agentId in env.agents
    requires env.agents[req.agentId].allowedHosts != [] && !Admit(env, now, req).Blocked?
    ensures req.hostId in env.agents[req.agentId].allowedHosts
  {
    CallerRefusesExactly(env, now, req);
  }

  /** Approval and re-check ask for a usable agent, unless the request was made without one or with the global key. */
  lemma MayActExactly(env: Env, now: real, agentId: string)
    ensures AgentMayAct(env, now, agentId) <==>
            agentId == "" || agentId == "__global__" || HasUsable(env.agents, agentId, now)
  {
  }

  // ----- the rule -----

  function CommandOf(req: Request): string
  {
    if req.Exec? then req.command else "write_sandbox_file"
  }

  /** The command sets of the agent a request is made in the name of; a request without one has none. */
  function AgentSets(env: Env, agentId: string): seq<string>
  {
    if agentId != "" && agentId != "__global__" && agentId in env.agents then env.agents[agentId].sets else []
  }

  predicate OnHost(env: Env, req: Request)
    requires req.hostId in env.hosts
  {
    || HasEntry(env.hosts[req.hostId].whitelist, CommandOf(req))
    || SetLists(env.sets, env.hosts[req.hostId].sets, Allow, CommandOf(req))
  }

  /** A command some deny-set of the host or of the agent lists. */
  predicate IsDenied(env: Env, req: Request, cmd: string)
    requires req.hostId in env.hosts
  {
    || SetLists(env.sets, env.hosts[req.hostId].sets, Deny, cmd)
    || SetLists(env.sets, AgentSets(env, req.agentId), Deny, cmd)
  }

  predicate Restricted(env: Env, req: Request)
  {
    exists sid :: sid in AgentSets(env, req.agentId) && sid in env.sets && env.sets[sid].enabled
                  && env.sets[sid].kind == Allow
  }

  /** The console asks for a whitelist entry only; everybody else for the whole rule. */
  predicate IsAllowed(env: Env, req: Request)
    requires req.hostId in env.hosts
  {
    && OnHost(env, req)
    && (!FromConsole(req) ==>
          && !IsDenied(env, req, CommandOf(req))
          && (Restricted(env, req) ==> SetLists(env.sets, AgentSets(env, req.agentId), Allow, CommandOf(req))))
  }

  lemma ActingHasItsSets(env: Env, agentId: string)
    ensures Acting(env, agentId).Some? ==> AgentSets(env, agentId) == Acting(env, agentId).value.sets
    ensures Acting(env, agentId).None? ==> AgentSets(env, agentId) == []
    ensures Acting(env, agentId).Some? <==> agentId != "" && agentId != "__global__" && agentId in env.agents
  {
  }

  lemma AuthorizedIsAllowed(env: Env, req: Request)
    requires req.hostId in env.hosts && !FromConsole(req)
    ensures Authorized(env.sets, env.hosts[req.hostId], Acting(env, req.agentId), CommandOf(req)) <==> IsAllowed(env, req)
  {
    AuthorizedExactly(env.sets, env.hosts[req.hostId], Acting(env, req.agentId), CommandOf(req));
    ActingHasItsSets(env, req.agentId);
  }

  /** The caller lets the request pass, and the rule refuses it: exactly for what the records say. */
  lemma RuleRefusesExactly(env: Env, now: real, req: Request)
    ensures Admit(env, now, req) == Blocked(Rule) <==>
            Admit(env, now, req) != Blocked(Caller) && req.hostId in env.hosts && !IsAllowed(env, req)
  {
    CallerStage(env, now, req);
    if CallerAccepts(env, now, req) {
      if FromConsole(req) {
        var k := EntryExactly(env.sets, env.hosts[req.hostId], req.command);
      } else {
        AuthorizedIsAllowed(env, req);
      }
    }
  }

  // ----- limits, parameters and deny rules -----

  ghost predicate PastRule(env: Env, now: real, req: Request)
  {
    Admit(env, now, req) != Blocked(Caller) && Admit(env, now, req) != Blocked(Rule)
  }

  predicate HasAgent(env: Env, req: Request)
  {
    req.agentId != "" && req.agentId != "__global__" && req.agentId in env.agents
  }

  /** Commands are counted for their host and for their agent, if they have one; the console's are not. */
  predicate HasRoom(env: Env, req: Request)
    requires req.Exec?
  {
    FromConsole(req) || (req.hostRateOk && (HasAgent(env, req) ==> req.agentRateOk))
  }

  lemma PastRuleMeans(env: Env, now: real, req: Request)
    ensures PastRule(env, now, req) && req.Exec? <==> CallerAccepts(env, now, req) && req.Exec? && RulePasses(env, req)
    ensures req.Exec? ==> (RatePasses(env, req) <==> HasRoom(env, req))
  {
    CallerStage(env, now, req);
    ActingHasItsSets(env, req.agentId);
  }

  lemma RateRefusesExactly(env: Env, now: real, req: Request)
    ensures Admit(env, now, req) == Blocked(Rate) <==> PastRule(env, now, req) && req.Exec? && !HasRoom(env, req)
  {
    PastRuleMeans(env, now, req);
  }

  /** The command as it will run: its template filled in if its entry has parameters, or as it was sent. */
  ghost function TextOf(env: Env, req: Request): Option<string>
    requires req.Exec? && req.hostId in env.hosts
  {
    var entry := WhitelistEntry(env.sets, env.hosts[req.hostId], req.command);
    if entry.None? || entry.value.params == map[] then Some(req.command)
    else Resolved(entry.value.cmd, entry.value.params, req.args, env.matches)
  }

  lemma ParametersRefuseExactly(env: Env, now: real, req: Request)
    ensures Admit(env, now, req) == Blocked(Parameters) <==>
            PastRule(env, now, req) && req.Exec? && HasRoom(env, req) && req.hostId in env.hosts && TextOf(env, req).None?
  {
    PastRuleMeans(env, now, req);
  }

  lemma HitsByOne(text: string, deny: set<string>, words: Tokenizer)
    ensures Hits(text, deny, words) <==> exists rule :: rule in deny && Hits(text, {rule}, words)
  {
    if Hits(text, deny, words) {
      var seg, d :| seg in Segments(text) && d in deny && Matches(seg, d, words);
      assert d in {d} && Hits(text, {d}, words);
    }
    forall rule | rule in deny && Hits(text, {rule}, words)
      ensures Hits(text, deny, words)
    {
      var seg, d :| seg in Segments(text) && d in {rule} && Matches(seg, d, words);
      assert d in deny;
    }
  }

  /** Some listed rule hits the text, a rule of the host's deny-sets or of the agent's. */
  ghost predicate RuleHits(env: Env, req: Request, text: string)
    requires req.hostId in env.hosts
  {
    exists rule :: IsDenied(env, req, rule) && Hits(text, {rule}, env.words)
  }

  lemma DeniedTextIsHit(env: Env, req: Request, text: string)
    requires req.hostId in env.hosts
    ensures Hits(text, Denied(env.sets, env.hosts[req.hostId], Acting(env, req.agentId)), env.words) <==>
            RuleHits(env, req, text)
  {
    var host, agent := env.hosts[req.hostId], Acting(env, req.agentId);
    ActingHasItsSets(env, req.agentId);
    HitsByOne(text, Denied(env.sets, host, agent), env.words);
    forall rule
      ensures rule in Denied(env.sets, host, agent) <==> IsDenied(env, req, rule)
    {
      DeniedIsListed(env.sets, host, agent, rule);
    }
  }

  lemma DenyRulesRefuseExactly(env: Env, now: real, req: Request)
    ensures Admit(env, now, req) == Blocked(DenyRule) <==>
            && PastRule(env, now, req) && req.Exec? && HasRoom(env, req) && req.hostId in env.hosts
            && TextOf(env, req).Some? && RuleHits(env, req, TextOf(env, req).value)
  {
    PastRuleMeans(env, now, req);
    if CallerAccepts(env, now, req) && req.Exec? && TextOf(env, req).Some? {
      DeniedTextIsHit(env, req, TextOf(env, req).value);
    }
  }

  // ----- what is not refused -----

  /** An entry's own approval mode comes before that of the host. */
  function ModeFor(env: Env, req: Request): Mode
    requires req.hostId in env.hosts
  {
    var entry := WhitelistEntry(env.sets, env.hosts[req.hostId], CommandOf(req));
    match entry
    case Some(Entry(_, Some(mode), _)) => mode
    case _ => env.hosts[req.hostId].mode
  }

  /** A strict item waits for ever, any other the host's time. */
  predicate WaitsFor(timeout: real, mode: Mode, host: Host)
  {
    if mode == Strict then timeout == 0.0 else timeout == host.timeout
  }

  /**
   * A command that no stage refuses is shown on a host in dry run; is executed at once from the console and in auto mode;
   * and is queued otherwise, for the host, with the text the rules were asked about.
   */
  lemma CommandOutcomeExactly(env: Env, now: real, req: Request)
    requires req.Exec? && !Admit(env, now, req).Blocked?
    ensures req.hostId in env.hosts && TextOf(env, req).Some?
    ensures var a, host, text := Admit(env, now, req), env.hosts[req.hostId], TextOf(env, req).value;
            var mode := ModeFor(env, req);
            if host.dryRun && !FromConsole(req) then a == DryRun(text)
            else if FromConsole(req) || mode == Auto then a == Execute(host, text, Command)
            else a.Enqueue? && WaitsFor(a.draft.timeout, mode, host)
                 && a.draft == Draft(host.id, req.command, text, req.agentId, mode, a.draft.timeout, Command)
  {
  }

  /** The same for a file, which goes into the host's directory, or the default one. */
  lemma FileOutcomeExactly(env: Env, now: real, req: Request)
    requires req.WriteFile? && !Admit(env, now, req).Blocked?
    ensures req.hostId in env.hosts
    ensures var a, host, mode := Admit(env, now, req), env.hosts[req.hostId], ModeFor(env, req);
            var directory := if host.sandboxPath != "" then host.sandboxPath else "/tmp/mcp-sandbox";
            var task := SandboxFile(req.filename, req.payload, directory);
            if host.dryRun then a == DryRun(req.summary)
            else if mode == Auto then a == Execute(host, req.summary, task)
            else a.Enqueue? && WaitsFor(a.draft.timeout, mode, host)
                 && a.draft == Draft(host.id, "write_sandbox_file", req.summary, req.agentId, mode, a.draft.timeout, task)
  {
  }
}
