/**
 * The admission pipeline (app/executor.py: execute_command, run_queued; app/main.py: api_exec, admin_exec;
 * app/mcp_transport.py: _exec_tool): what becomes of a request, from its caller's checks to execution or queue.
 */
module Executor {
  import opened Options
  import opened Registry
  import opened CommandSets
  import opened DenyRules
  import opened Params
  import opened Templates
  import RateLimit
  import SlidingWindow

  /** What the gate reads when it decides: the registries and the two foreign matchers. */
  datatype Env = Env(hosts: map<string, Host>, agents: map<string, Agent>, sets: Sets,
                     words: Tokenizer, matches: Matcher)

  datatype Channel = Rest | Mcp | Console

  /**
   * What the MCP transport read when it accepted the token; the request body is awaited after that, and the calls of a
   * batch follow one another.
   */
  datatype Accepted = Accepted(agents: map<string, Agent>, at: real)

  /** `hostRateOk` and `agentRateOk` are the verdicts of the rate limiter for this request. */
  datatype Request =
    | Exec(channel: Channel, hostId: string, command: string, agentId: string, args: Values,
           hostRateOk: bool, agentRateOk: bool, accepted: Accepted)
    | WriteFile(hostId: string, agentId: string, filename: string, payload: string, summary: string,
                accepted: Accepted)

  /** What a queued item will do when it runs. */
  datatype Task = Command | SandboxFile(filename: string, payload: string, directory: string)

  /** A queue item before it gets its id, creation time and status. */
  datatype Draft = Draft(hostId: string, command: string, resolved: string, agentId: string, mode: Mode,
                         timeout: real, task: Task)

  datatype Stage = Caller | Rule | Rate | Parameters | DenyRule

  datatype Admission =
    | Blocked(stage: Stage)
    | DryRun(wouldRun: string)
    | Execute(host: Host, text: string, task: Task)
    | Enqueue(draft: Draft)

  const GLOBAL := "__global__"
  const WRITE_COMMAND := "write_sandbox_file"
  const DEFAULT_SANDBOX := "/tmp/mcp-sandbox"

  /** An agent restriction applies to named agents only; the global key has none. */
  predicate AgentMayAct(env: Env, now: real, agentId: string)
  {
    agentId == "" || agentId == GLOBAL || ActiveAgent(env.agents, agentId, now)
  }

  predicate ActiveAgent(agents: map<string, Agent>, id: string, t: real)
  {
    id in agents && ActiveAt(agents[id], t)
  }

  predicate ViaMcp(req: Request)
  {
    req.Exec? ==> req.channel == Mcp
  }

  /** `_require_mcp_auth`: a token that belongs to an agent is accepted only while that agent is active. */
  predicate TransportAccepts(req: Request)
  {
    ViaMcp(req) && req.agentId != "" ==> ActiveAgent(req.accepted.agents, req.agentId, req.accepted.at)
  }

  /** The other fields MCP asks for are not empty. */
  predicate Complete(req: Request)
  {
    if req.Exec? then req.command != "" else req.filename != "" && req.payload != ""
  }

  /** The checks a caller makes before the pipeline. */
  predicate CallerAccepts(env: Env, now: real, req: Request)
  {
    var hostId, agentId := req.hostId, req.agentId;
    TransportAccepts(req) && hostId in env.hosts &&
    match if req.Exec? then req.channel else Mcp
    case Rest =>
      env.hosts[hostId].enabled && (agentId == GLOBAL || ActiveAgent(env.agents, agentId, now))
    case Mcp =>
      Complete(req) && hostId != "" && env.hosts[hostId].enabled
      && (agentId != "" && agentId in env.agents ==>
            ActiveAt(env.agents[agentId], now)
            && (env.agents[agentId].allowedHosts != [] ==> hostId in env.agents[agentId].allowedHosts))
    case Console => agentId == ""
  }

  /** The agent whose sets apply. */
  function Acting(env: Env, agentId: string): Option<Agent>
  {
    if agentId == "" || agentId == GLOBAL then None else Lookup(env.agents, agentId)
  }

  function ModeOf(host: Host, entry: Option<Entry>): Mode
  {
    if entry.Some? && entry.value.approval.Some? then entry.value.approval.value else host.mode
  }

  function TimeoutOf(host: Host, mode: Mode): real
  {
    if mode == Strict then 0.0 else host.timeout
  }

  /** The command text after parameter substitution, or nothing if validation refuses. */
  ghost function ResolvedCommand(env: Env, entry: Option<Entry>, req: Request): Option<string>
    requires req.Exec?
  {
    if entry.Some? && entry.value.params != map[]
    then Resolved(entry.value.cmd, entry.value.params, req.args, env.matches)
    else Some(req.command)
  }

  /** The pipeline's first question: is the command on the list it has to be on? */
  predicate RulePasses(env: Env, req: Request)
    requires req.Exec? && req.hostId in env.hosts
  {
    var host := env.hosts[req.hostId];
    if req.channel == Console then WhitelistEntry(env.sets, host, req.command).Some?
    else Authorized(env.sets, host, Acting(env, req.agentId), req.command)
  }

  /** What follows the limiter: parameters, deny rules, dry run, approval mode. */
  ghost function Decided(env: Env, req: Request): Admission
    requires req.Exec? && req.hostId in env.hosts
  {
    var host, agent := env.hosts[req.hostId], Acting(env, req.agentId);
    var entry := WhitelistEntry(env.sets, host, req.command);
    if ResolvedCommand(env, entry, req).None? then Blocked(Parameters)
    else
      var text := ResolvedCommand(env, entry, req).value;
      var mode := ModeOf(host, entry);
      if Hits(text, Denied(env.sets, host, agent), env.words) then Blocked(DenyRule)
      else if host.dryRun && req.channel != Console then DryRun(text)
      else if req.channel == Console || mode == Auto then Execute(host, text, Command)
      else Enqueue(Draft(host.id, req.command, text, req.agentId, mode, TimeoutOf(host, mode), Command))
  }

  predicate RatePasses(env: Env, req: Request)
    requires req.Exec?
  {
    req.channel != Console ==> req.hostRateOk && (Acting(env, req.agentId).Some? ==> req.agentRateOk)
  }

  ghost function AdmitCommand(env: Env, now: real, req: Request): Admission
    requires req.Exec?
  {
    if !CallerAccepts(env, now, req) then Blocked(Caller)
    else if !RulePasses(env, req) then Blocked(Rule)
    else if !RatePasses(env, req) then Blocked(Rate)
    else Decided(env, req)
  }

  ghost function AdmitWrite(env: Env, now: real, req: Request): Admission
    requires req.WriteFile?
  {
    if !CallerAccepts(env, now, req) then
      Blocked(Caller)
    else
      var host, agent := env.hosts[req.hostId], Acting(env, req.agentId);
      if !Authorized(env.sets, host, agent, WRITE_COMMAND) then Blocked(Rule)
      else
        var mode := ModeOf(host, WhitelistEntry(env.sets, host, WRITE_COMMAND));
        var directory := if host.sandboxPath == "" then DEFAULT_SANDBOX else host.sandboxPath;
        var task := SandboxFile(req.filename, req.payload, directory);
        if host.dryRun then DryRun(req.summary)
        else if mode == Auto then Execute(host, req.summary, task)
        else Enqueue(Draft(host.id, WRITE_COMMAND, req.summary, req.agentId, mode, TimeoutOf(host, mode), task))
  }

  ghost function Admit(env: Env, now: real, req: Request): Admission
  {
    if req.Exec? then AdmitCommand(env, now, req) else AdmitWrite(env, now, req)
  }

  method CheckRule(env: Env, req: Request) returns (ok: bool)
    requires req.Exec? && req.hostId in env.hosts
    ensures ok == RulePasses(env, req)
  {
    var host := env.hosts[req.hostId];
    if req.channel == Console {
      var entry := FindWhitelistEntry(env.sets, host, req.command);
      return entry.Some?;
    }
    var verdict := CheckCommandAuthorized(env.sets, host, Acting(env, req.agentId), req.command);
    ok := verdict.Allowed?;
  }

  /** The stages after the limiter. */
  method Decide(env: Env, req: Request) returns (a: Admission)
    requires req.Exec? && req.hostId in env.hosts
    ensures a == Decided(env, req)
  {
    var host, agent := env.hosts[req.hostId], Acting(env, req.agentId);
    var entry := FindWhitelistEntry(env.sets, host, req.command);
    var text := req.command;
    if entry.Some? && entry.value.params != map[] {
      var r := ValidateAndSubstitute(entry.value.cmd, entry.value.params, req.args, env.matches);
      if r.Err? {
        return Blocked(Parameters);
      }
      text := r.value;
    }
    var deny := CollectCommands(env.sets, host.sets, Deny);
    if agent.Some? {
      var agentDeny := CollectCommands(env.sets, agent.value.sets, Deny);
      deny := deny + agentDeny;
    }
    var hit := DenyHit(text, deny, env.words);
    if hit.Some? {
      return Blocked(DenyRule);
    }
    var mode := ModeOf(host, entry);
    if host.dryRun && req.channel != Console {
      return DryRun(text);
    }
    if req.channel == Console || mode == Auto {
      return Execute(host, text, Command);
    }
    return Enqueue(Draft(host.id, req.command, text, req.agentId, mode, TimeoutOf(host, mode), Command));
  }

  function HostKey(host: Host): string
  {
    "host:" + host.id
  }

  function AgentKey(agentId: string): string
  {
    "agent:" + agentId
  }

  /** Each host and each agent has a window of its own. */
  lemma KeysAreApart(a: Host, b: Host, x: string, y: string)
    ensures HostKey(a) == HostKey(b) <==> a.id == b.id
    ensures AgentKey(x) == AgentKey(y) <==> x == y
    ensures HostKey(a) != AgentKey(x)
  {
    assert HostKey(a)[5..] == a.id && HostKey(b)[5..] == b.id && AgentKey(x)[6..] == x && AgentKey(y)[6..] == y;
    assert HostKey(a)[0] == 'h' && AgentKey(x)[0] == 'a';
  }

  /** The request with the limiter's verdicts on these windows filled in. */
  function Limited(req: Request, now: real, hostWindow: seq<real>, hostLimit: int,
                   agentWindow: seq<real>, agentLimit: int): Request
    requires req.Exec?
  {
    req.(hostRateOk := SlidingWindow.Allowed(hostWindow, RateLimit.Ask(now, hostLimit), RateLimit.WINDOW),
         agentRateOk := SlidingWindow.Allowed(agentWindow, RateLimit.Ask(now, agentLimit), RateLimit.WINDOW))
  }

  function Charged(window: seq<real>, now: real, limit: int): seq<real>
  {
    SlidingWindow.Next(window, RateLimit.Ask(now, limit), RateLimit.WINDOW)
  }

  lemma LimitedDiffersInRates(env: Env, now: real, req: Request, hostOk: bool, agentOk: bool)
    requires req.Exec?
    ensures var r := req.(hostRateOk := hostOk, agentRateOk := agentOk);
            && CallerAccepts(env, now, r) == CallerAccepts(env, now, req)
            && (req.hostId in env.hosts ==>
                  RulePasses(env, r) == RulePasses(env, req) && Decided(env, r) == Decided(env, req))
            && RatePasses(env, r) == (req.channel != Console ==> hostOk && (Acting(env, req.agentId).Some? ==> agentOk))
  {
  }

  /** The limiter's stage: the host's window, and if it has room, that of the agent. */
  method CheckRates(limiter: RateLimit.RateLimiter, hostKey: string, agentKey: string, named: bool, now: real,
                    hostLimit: int, agentLimit: int) returns (ok: bool)
    requires hostKey != agentKey
    modifies limiter
    ensures var host, agent := old(limiter.Window(hostKey)), old(limiter.Window(agentKey));
            var hostOk := SlidingWindow.Allowed(host, RateLimit.Ask(now, hostLimit), RateLimit.WINDOW);
            var agentOk := SlidingWindow.Allowed(agent, RateLimit.Ask(now, agentLimit), RateLimit.WINDOW);
            && ok == (hostOk && (named ==> agentOk))
            && limiter.Window(hostKey) == Charged(host, now, hostLimit)
            && limiter.Window(agentKey) == (if hostOk && named then Charged(agent, now, agentLimit) else agent)
    ensures forall k :: k != hostKey && k != agentKey ==> limiter.Window(k) == old(limiter.Window(k))
  {
    ok := limiter.Check(hostKey, hostLimit, now);
    if ok && named {
      ok := limiter.Check(agentKey, agentLimit, now);
    }
  }

  /** A request reaches the limiter. */
  predicate Counted(env: Env, now: real, req: Request)
    requires req.Exec?
  {
    CallerAccepts(env, now, req) && req.channel != Console && RulePasses(env, req)
  }

  /**
   * The staged pipeline for a command on the limiter's windows: the specified verdict, and only a request that passed
   * the caller and the rule is charged, its agent only if its host had room.
   */
  method ExecuteCommand(limiter: RateLimit.RateLimiter, env: Env, now: real, req: Request,
                        hostLimit: int, agentLimit: int) returns (a: Admission)
    requires req.Exec?
    modifies limiter
    ensures var hostKey := if req.hostId in env.hosts then HostKey(env.hosts[req.hostId]) else "";
            var host, agent := old(limiter.Window(hostKey)), old(limiter.Window(AgentKey(req.agentId)));
            var asked := Limited(req, now, host, hostLimit, agent, agentLimit);
            var second := asked.hostRateOk && Acting(env, req.agentId).Some?;
            && a == AdmitCommand(env, now, asked)
            && (Counted(env, now, req) ==>
                  && limiter.Window(hostKey) == Charged(host, now, hostLimit)
                  && limiter.Window(AgentKey(req.agentId)) == if second then Charged(agent, now, agentLimit) else agent)
            && forall k :: !Counted(env, now, req) || (k != hostKey && k != AgentKey(req.agentId)) ==>
                 limiter.Window(k) == old(limiter.Window(k))
  {
    ghost var hostKey := if req.hostId in env.hosts then HostKey(env.hosts[req.hostId]) else "";
    ghost var asked := Limited(req, now, limiter.Window(hostKey), hostLimit,
                               limiter.Window(AgentKey(req.agentId)), agentLimit);
    LimitedDiffersInRates(env, now, req, asked.hostRateOk, asked.agentRateOk);
    if !CallerAccepts(env, now, req) {
      return Blocked(Caller);
    }
    var rule := CheckRule(env, req);
    if !rule {
      return Blocked(Rule);
    }
    if req.channel != Console {
      var host := env.hosts[req.hostId];
      assert HostKey(host)[0] != AgentKey(req.agentId)[0];
      var ok := CheckRates(limiter, HostKey(host), AgentKey(req.agentId), Acting(env, req.agentId).Some?, now,
                           hostLimit, agentLimit);
      if !ok {
        return Blocked(Rate);
      }
    }
    a := Decide(env, req);
  }

  /** `api_exec`: the host's window is asked once before the pipeline, with a default, and again inside it. */
  method ApiExec(limiter: RateLimit.RateLimiter, env: Env, now: real, req: Request, configured: Option<int>,
                 agentLimit: int) returns (a: Admission)
    requires req.Exec? && req.channel == Rest
    modifies limiter
    ensures !CallerAccepts(env, now, req) ==>
              a == Blocked(Caller) && forall k :: limiter.Window(k) == old(limiter.Window(k))
    ensures CallerAccepts(env, now, req) ==>
              var hostKey := HostKey(env.hosts[req.hostId]);
              var host, agent := old(limiter.Window(hostKey)), old(limiter.Window(AgentKey(req.agentId)));
              var once := Charged(host, now, RateLimit.FirstLimit(configured));
              var limit := RateLimit.PipelineLimit(configured);
              if !SlidingWindow.Allowed(host, RateLimit.Ask(now, RateLimit.FirstLimit(configured)), RateLimit.WINDOW)
              then a == Blocked(Rate) && limiter.Window(hostKey) == once
              else
                && a == AdmitCommand(env, now, Limited(req, now, once, limit, agent, agentLimit))
                && limiter.Window(hostKey) == if RulePasses(env, req) then Charged(once, now, limit) else once
  {
    if !CallerAccepts(env, now, req) {
      return Blocked(Caller);
    }
    var hostKey := HostKey(env.hosts[req.hostId]);
    assert hostKey[0] != AgentKey(req.agentId)[0];
    var ok := limiter.Check(hostKey, RateLimit.FirstLimit(configured), now);
    if !ok {
      return Blocked(Rate);
    }
    a := ExecuteCommand(limiter, env, now, req, RateLimit.PipelineLimit(configured), agentLimit);
  }

  /** The `write_sandbox_file` tool, with the verdict the specification gives. */
  method WriteSandboxFile(env: Env, now: real, req: Request) returns (a: Admission)
    requires req.WriteFile?
    ensures a == AdmitWrite(env, now, req)
  {
    if !CallerAccepts(env, now, req) {
      return Blocked(Caller);
    }
    var host, agent := env.hosts[req.hostId], Acting(env, req.agentId);
    var verdict := CheckCommandAuthorized(env.sets, host, agent, WRITE_COMMAND);
    if !verdict.Allowed? {
      return Blocked(Rule);
    }
    var directory := if host.sandboxPath == "" then DEFAULT_SANDBOX else host.sandboxPath;
    var task := SandboxFile(req.filename, req.payload, directory);
    if host.dryRun {
      return DryRun(req.summary);
    }
    var entry := FindWhitelistEntry(env.sets, host, WRITE_COMMAND);
    var mode := ModeOf(host, entry);
    if mode == Auto {
      return Execute(host, req.summary, task);
    }
    return Enqueue(Draft(host.id, WRITE_COMMAND, req.summary, req.agentId, mode, TimeoutOf(host, mode), task));
  }

  /** Why an agent's request may go further: the whole chain of conditions, on one reading of the registries. */
  ghost predicate Cleared(env: Env, now: real, req: Request, text: string, task: Task, mode: Mode)
  {
    && req.hostId in env.hosts
    && var host, agent := env.hosts[req.hostId], Acting(env, req.agentId);
       var command := if req.Exec? then req.command else WRITE_COMMAND;
    && host.enabled && !host.dryRun
    && Authorized(env.sets, host, agent, command)
    && WhitelistEntry(env.sets, host, command).Some?
    && mode == ModeOf(host, WhitelistEntry(env.sets, host, command))
    && (agent.Some? ==> ActiveAt(agent.value, now))
    && (req.Exec? ==> task == Command && !Hits(text, Denied(env.sets, host, agent), env.words)
                      && ResolvedCommand(env, WhitelistEntry(env.sets, host, command), req) == Some(text))
    && (req.WriteFile? ==> text == req.summary && task.SandboxFile? && task.filename == req.filename
                           && task.payload == req.payload)
  }

  /**
   * An agent's request that runs at once or is queued was cleared, in auto mode exactly when it runs at once; the
   * queued draft carries the very text the deny rules let pass, and the timeout is 0 only for strict approval.
   */
  lemma AdmittedIsCleared(env: Env, now: real, req: Request)
    requires req.Exec? ==> req.channel != Console
    ensures var a := Admit(env, now, req);
            && (a.Execute? ==> a.host == env.hosts[req.hostId] && Cleared(env, now, req, a.text, a.task, Auto))
            && (a.Enqueue? ==> Cleared(env, now, req, a.draft.resolved, a.draft.task, a.draft.mode)
                               && a.draft.mode != Auto && a.draft.agentId == req.agentId
                               && a.draft.hostId == env.hosts[req.hostId].id
                               && a.draft.command == (if req.Exec? then req.command else WRITE_COMMAND)
                               && a.draft.timeout == TimeoutOf(env.hosts[req.hostId], a.draft.mode))
  {
    var command := if req.Exec? then req.command else WRITE_COMMAND;
    if req.hostId in env.hosts {
      var host, agent := env.hosts[req.hostId], Acting(env, req.agentId);
      if Authorized(env.sets, host, agent, command) {
        AuthorizedHasEntry(env.sets, host, agent, command);
      }
    }
  }

  /** What comes before the decision: the caller's checks, the limiter, and for a file a name and a content. */
  predicate PassesCaller(env: Env, now: real, req: Request)
  {
    && CallerAccepts(env, now, req)
    && (req.Exec? ==> req.hostRateOk && (Acting(env, req.agentId).Some? ==> req.agentRateOk))
  }

  /** The directory is the host's, or the default. */
  function TaskOf(env: Env, req: Request): Task
    requires req.hostId in env.hosts
  {
    var path := env.hosts[req.hostId].sandboxPath;
    if req.Exec? then Command else SandboxFile(req.filename, req.payload, if path == "" then DEFAULT_SANDBOX else path)
  }

  /** Nothing that is cleared is turned away: an agent's request runs or is queued exactly when it is cleared. */
  lemma AdmittedExactly(env: Env, now: real, req: Request)
    requires req.Exec? ==> req.channel != Console
    ensures var a := Admit(env, now, req);
            a.Execute? || a.Enqueue? <==>
            && PassesCaller(env, now, req)
            && exists text, mode :: Cleared(env, now, req, text, TaskOf(env, req), mode)
  {
    AdmittedIsCleared(env, now, req);
    var a := Admit(env, now, req);
    if a.Execute? {
      assert Cleared(env, now, req, a.text, TaskOf(env, req), Auto);
    } else if a.Enqueue? {
      assert Cleared(env, now, req, a.draft.resolved, TaskOf(env, req), a.draft.mode);
    }
  }

  /** The console bypasses approval and dry run, never the whitelist or the host's deny rules. */
  lemma ConsoleIsStillBounded(env: Env, now: real, req: Request)
    requires req.Exec? && req.channel == Console && Admit(env, now, req).Execute?
    ensures req.hostId in env.hosts && req.command in HostAllow(env.sets, env.hosts[req.hostId])
    ensures !Hits(Admit(env, now, req).text, Collected(env.sets, env.hosts[req.hostId].sets, Deny), env.words)
  {
    var host := env.hosts[req.hostId];
    EffectiveWhitelistIsHostAllow(env.sets, host);
    assert Denied(env.sets, host, None) == Collected(env.sets, host.sets, Deny);
  }

  // ----- the agent behind a request -----

  predicate Named(agentId: string)
  {
    agentId != "" && agentId != GLOBAL
  }

  /** The agent was there when the transport accepted the token, and is gone when the call is made. */
  predicate DeletedSince(env: Env, req: Request)
  {
    ViaMcp(req) && req.agentId in req.accepted.agents && req.agentId !in env.agents
  }

  /**
   * A request in the name of an agent that is not turned away has this agent, active, at the call: exactly unless the
   * agent was deleted after the transport accepted its token.
   */
  lemma NamedAgentIsActiveExactly(env: Env, now: real, req: Request)
    requires Named(req.agentId) && !Admit(env, now, req).Blocked?
    ensures ActiveAgent(env.agents, req.agentId, now) <==> !DeletedSince(env, req)
  {
    assert CallerAccepts(env, now, req);
  }

  /**
   * In that gap a request is treated like one without an agent. In auto mode it is executed at once, although its
   * agent may not act.
   */
  lemma DeletedAgentIsExecuted(agent: Agent, words: Tokenizer, matches: Matcher, now: real)
    requires ActiveAt(agent, now)
    ensures var host := Host("web", true, false, Auto, 300.0, [], [Entry("uptime", None, map[])], "");
            var env := Env(map["web" := host], map[], map[], words, matches);
            var req := Exec(Mcp, "web", "uptime", "ops", map[], true, true, Accepted(map["ops" := agent], now));
            && DeletedSince(env, req) && !AgentMayAct(env, now, "ops")
            && Admit(env, now, req) == Execute(host, "uptime", Command)
  {
    var host := Host("web", true, false, Auto, 300.0, [], [Entry("uptime", None, map[])], "");
    var sets: Sets := map[];
    assert host.whitelist[0] in host.whitelist;
    assert HostAllow(sets, host) == {"uptime"};
    assert Denied(sets, host, None) == {};
    assert Authorized(sets, host, None, "uptime");
    assert WhitelistEntry(sets, host, "uptime") == Some(host.whitelist[0]);
  }

  // ----- running a queued item -----

  /** What `run_queued` does: a command or a file on the host the registry has now, or nothing if it is gone. */
  datatype Action = RunText(host: Host, text: string) | PutFile(host: Host, task: Task) | NoHost

  function QueuedAction(env: Env, hostId: string, resolved: string, task: Task): Action
  {
    if hostId !in env.hosts then NoHost
    else if task.Command? then RunText(env.hosts[hostId], resolved)
    else PutFile(env.hosts[hostId], task)
  }
}
