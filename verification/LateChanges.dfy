/**
 * What an execution guarantees about the registries at that time (app/main.py: api_approve; app/tasks.py: approval_loop;
 * app/executor.py: run_queued). Approval looks at the item's agent only, the sweep at host, agent and the command's name;
 * whether the host is enabled or in dry run, and what the deny rules say of the text, counted at the submission.
 */
module LateChanges {
  import opened Options
  import opened Registry
  import opened CommandSets
  import opened Executor
  import opened AdmissionStages
  import opened Approvals
  import opened Protocol
  import opened Invariant
  import opened Safety
  import opened Grounds
  import opened Theorems
  import opened Wakeups

  /** The draft is carried out on this host. */
  predicate CarriesOut(action: Action, host: Host, d: Draft)
  {
    action == if d.task.Command? then RunText(host, d.resolved) else PutFile(host, d.task)
  }

  /** The new entry of the log carries the draft out on the host these registries list, or reports that there is none. */
  ghost predicate RunsUnder(s: State, s': State, env: Env, d: Draft)
  {
    && s'.log != [] && s'.log[..|s'.log| - 1] == s.log
    && var action := s'.log[|s'.log| - 1].action;
       if d.hostId in env.hosts then CarriesOut(action, env.hosts[d.hostId], d) else action == NoHost
  }

  // ----- what decides whether a queued item runs -----

  lemma ApproveStarts(s: State, a: Aid)
    requires !Underway(s) && IsPending(s.sh, a) && a !in s.approvers
    ensures var s' := DoApprove(s, a);
            && (a in s'.approvers <==> AgentMayAct(s.env, s.now, s.sh.queue[a].draft.agentId))
            && (a in s'.approvers ==> s'.approvers[a].Running? && s'.approvers[a].it.draft == s.sh.queue[a].draft)
            && s'.log == s.log && !Underway(s')
  {
  }

  lemma RunAppends(s: State, a: Aid, outcome: Outcome)
    requires a in s.approvers && s.approvers[a].Running?
    ensures RunsUnder(s, DoApproverRun(s, a, outcome), s.env, s.approvers[a].it.draft)
  {
  }

  lemma PendingHasNoApprover(s: State, a: Aid)
    requires Inv(s) && IsPending(s.sh, a)
    ensures a !in s.approvers
  {
    assert LocalOk(a, Of(s, a), s.now);
  }

  /**
   * Whatever the registries are at an approval, and whatever they are made before the execution: the approval leads to
   * one exactly when the agent may act at the approval, and that runs on the host as it is listed in the end.
   */
  lemma ApprovalRunsExactly(s: State, a: Aid, env: Env, outcome: Outcome)
    requires Good(s) && !Underway(s) && IsPending(s.sh, a)
    ensures Enabled(s, Approve(a)) && Enabled(DoApprove(s, a), Configure(env))
    ensures var d := s.sh.queue[a].draft;
            var s' := DoApprove(s, a).(env := env);
            && (Enabled(s', ApproverRun(a, outcome)) <==> AgentMayAct(s.env, s.now, d.agentId))
            && (AgentMayAct(s.env, s.now, d.agentId) ==> RunsUnder(s, DoApproverRun(s', a, outcome), env, d))
  {
    PendingHasNoApprover(s, a);
    ApproveStarts(s, a);
    var s' := DoApprove(s, a).(env := env);
    if a in s'.approvers {
      RunAppends(s', a, outcome);
    }
  }

  lemma FirstOfBatch(s: State, order: seq<Aid>)
    requires s.sweep.Idle? && ListsExpired(s, order) && order != []
    requires s.sh.queue[order[0]].draft.mode == Optimistic
    ensures var s1 := DoSweepBegin(s, order);
            && Protocol.At(s1) && s1.sweep.point.Take? && Current(s1) == Lapsed(s.sh.queue[order[0]])
            && s1.env == s.env && s1.now == s.now && s1.log == s.log
  {
    var s1 := DoSweepBegin(s, order);
    assert s1.sweep.batch[0] == Lapsed(s.sh.queue[order[0]]);
  }

  lemma TakeExecutes(s: State)
    requires Protocol.At(s) && s.sweep.point.Take? && Current(s).auto == Some(TimeoutApprove)
    ensures var s' := DoSweepTake(s);
            && (s'.sweep.point.Executing? <==> RecheckOk(s.env, s.now, Current(s)))
            && Protocol.At(s') && Current(s') == Current(s) && s'.log == s.log
  {
  }

  lemma SweepRunsUnder(s: State, env: Env, outcome: Outcome)
    requires Protocol.At(s)
    ensures Enabled(s, SweepRun(outcome)) <==> s.sweep.point.Executing?
    ensures s.sweep.point.Executing? ==>
              && Enabled(s, Configure(env)) && Enabled(s.(env := env), SweepRun(outcome))
              && RunsUnder(s, DoSweepRun(s.(env := env), outcome), env, Current(s).draft)
  {
  }

  /**
   * The same for an optimistic item that expired, at its turn: it is executed exactly when its re-check passes, and that
   * runs on the host as it is listed in the end.
   */
  lemma ExpiryRunsExactly(s: State, env: Env, outcome: Outcome)
    requires Protocol.At(s) && s.sweep.point.Take? && Current(s).auto == Some(TimeoutApprove)
    ensures Enabled(s, SweepTake)
    ensures var s', it := DoSweepTake(s), Current(s);
            && (Enabled(s', SweepRun(outcome)) <==> RecheckOk(s.env, s.now, it))
            && (RecheckOk(s.env, s.now, it) ==>
                  && Enabled(s', Configure(env)) && Enabled(s'.(env := env), SweepRun(outcome))
                  && RunsUnder(s, DoSweepRun(s'.(env := env), outcome), env, it.draft))
  {
    TakeExecutes(s);
    SweepRunsUnder(DoSweepTake(s), env, outcome);
  }

  /**
   * The re-check passes exactly if the host is still listed, the command is on its list, no deny-set of host or agent lists
   * it, an agent with an allow-set has it in one, and the agent may still act.
   */
  lemma RecheckExactly(env: Env, now: real, it: Item)
    ensures RecheckOk(env, now, it) <==>
            && it.draft.hostId in env.hosts
            && var host, sets, cmd := env.hosts[it.draft.hostId], AgentSets(env, it.draft.agentId), it.draft.command;
            && (HasEntry(host.whitelist, cmd) || SetLists(env.sets, host.sets, Allow, cmd))
            && !SetLists(env.sets, host.sets, Deny, cmd) && !SetLists(env.sets, sets, Deny, cmd)
            && ((exists sid :: sid in sets && sid in env.sets && env.sets[sid].enabled && env.sets[sid].kind == Allow)
                ==> SetLists(env.sets, sets, Allow, cmd))
            && (it.draft.agentId == "" || it.draft.agentId == "__global__"
                || HasUsable(env.agents, it.draft.agentId, now))
  {
    MayActExactly(env, now, it.draft.agentId);
    ActingHasItsSets(env, it.draft.agentId);
    if it.draft.hostId in env.hosts {
      AuthorizedExactly(env.sets, env.hosts[it.draft.hostId], Acting(env, it.draft.agentId), it.draft.command);
    }
  }

  // ----- changes that do not count -----

  /** The host switched off and to dry run. */
  function SwitchedOff(env: Env, hostId: string): Env
    requires hostId in env.hosts
  {
    env.(hosts := env.hosts[hostId := env.hosts[hostId].(enabled := false, dryRun := true)])
  }

  /** To a request, each of the two switches counts: but for the console, nothing is executed or queued on such a host. */
  lemma NothingNewRuns(env: Env, now: real, req: Request)
    requires req.hostId in env.hosts && (!env.hosts[req.hostId].enabled || env.hosts[req.hostId].dryRun)
    requires req.Exec? ==> req.channel != Console
    ensures Admit(env, now, req).Blocked? || Admit(env, now, req).DryRun?
  {
  }

  lemma RecheckIgnoresSwitches(env: Env, hostId: string, now: real, it: Item)
    requires hostId in env.hosts
    ensures RecheckOk(SwitchedOff(env, hostId), now, it) <==> RecheckOk(env, now, it)
  {
  }

  /** A deny rule added to the host in a set of its own. */
  function WithRule(env: Env, hostId: string, id: string, rule: string): Env
    requires hostId in env.hosts
  {
    var host := env.hosts[hostId];
    env.(hosts := env.hosts[hostId := host.(sets := host.sets + [id])],
         sets := env.sets[id := CommandSet(id, true, Deny, [Entry(rule, None, map[])])])
  }

  lemma RuleIsCollected(env: Env, hostId: string, id: string, rule: string, ids: seq<string>, kind: SetType)
    requires hostId in env.hosts && id !in env.sets
    ensures var sets' := WithRule(env, hostId, id, rule).sets;
            && (HasAllowSet(sets', ids) <==> HasAllowSet(env.sets, ids))
            && Collected(sets', ids, kind)
               == Collected(env.sets, ids, kind) + if kind == Deny && id in ids then {rule} else {}
  {
    var sets' := WithRule(env, hostId, id, rule).sets;
    assert Cmds(sets'[id].commands) == {rule};
    assert forall sid :: sid in ids && sid != id ==> Counts(sets', sid, kind) == Counts(env.sets, sid, kind);
  }

  lemma RuleChangesVerdict(env: Env, hostId: string, id: string, rule: string, agent: Option<Agent>, cmd: string)
    requires hostId in env.hosts && id !in env.sets
    ensures var env' := WithRule(env, hostId, id, rule);
            && Denied(env'.sets, env'.hosts[hostId], agent) == Denied(env.sets, env.hosts[hostId], agent) + {rule}
            && EffectiveAllow(env'.sets, env'.hosts[hostId], agent) == EffectiveAllow(env.sets, env.hosts[hostId], agent)
  {
    var env' := WithRule(env, hostId, id, rule);
    var ids := env'.hosts[hostId].sets;
    assert id in ids;
    RuleIsCollected(env, hostId, id, rule, ids, Allow);
    RuleIsCollected(env, hostId, id, rule, ids, Deny);
    UnknownIsIgnored(env.sets, env.hosts[hostId].sets, id, Allow);
    UnknownIsIgnored(env.sets, env.hosts[hostId].sets, id, Deny);
    if agent.Some? {
      RuleIsCollected(env, hostId, id, rule, agent.value.sets, Allow);
      RuleIsCollected(env, hostId, id, rule, agent.value.sets, Deny);
    }
  }

  /** The re-check sees the rule only if it is the command's name, whatever the text that will run. */
  lemma RecheckSeesNamesOnly(env: Env, id: string, rule: string, now: real, it: Item)
    requires it.draft.hostId in env.hosts && id !in env.sets
    ensures var env' := WithRule(env, it.draft.hostId, id, rule);
            && (RecheckOk(env', now, it) <==> RecheckOk(env, now, it) && rule != it.draft.command)
            && rule in Denied(env'.sets, env'.hosts[it.draft.hostId], Acting(env', it.draft.agentId))
  {
    RuleChangesVerdict(env, it.draft.hostId, id, rule, Acting(env, it.draft.agentId), it.draft.command);
  }

  lemma UnknownIsIgnored(sets: Sets, ids: seq<string>, id: string, kind: SetType)
    requires id !in sets
    ensures Collected(sets, ids + [id], kind) == Collected(sets, ids, kind)
  {
  }

  lemma Reconfigured(s: State, env: Env)
    requires Good(s) && !Underway(s)
    ensures Enabled(s, Configure(env)) && Good(s.(env := env)) && !Underway(s.(env := env))
    ensures Apply(s, Configure(env)) == s.(env := env)
    ensures forall order :: ListsExpired(s, order) ==> ListsExpired(s.(env := env), order)
  {
    StepKeeps(s, Configure(env));
    StepGrounded(s, Configure(env));
  }

  lemma Chain(s: State, one: Step, two: Step, rest: seq<Step>)
    requires Enabled(s, one) && Enabled(Apply(s, one), two) && Feasible(Apply(Apply(s, one), two), rest)
    ensures Feasible(s, [one] + ([two] + rest))
    ensures After(s, [one] + ([two] + rest)) == After(Apply(Apply(s, one), two), rest)
  {
    ThenOne(Apply(s, one), two, rest);
    ThenOne(s, one, [two] + rest);
  }

  /** A queued item whose host is switched off and to dry run in the meantime runs there all the same, when approved. */
  lemma SwitchedOffHostRunsApproved(s: State, a: Aid, outcome: Outcome) returns (steps: seq<Step>)
    requires Good(s) && !Underway(s) && IsPending(s.sh, a) && s.sh.queue[a].draft.hostId in s.env.hosts
    requires AgentMayAct(s.env, s.now, s.sh.queue[a].draft.agentId)
    ensures var d := s.sh.queue[a].draft;
            var off := SwitchedOff(s.env, d.hostId);
            && steps == [Configure(off)] + ([Approve(a)] + ([ApproverRun(a, outcome)] + []))
            && Feasible(s, steps) && RunsUnder(s, After(s, steps), off, d)
  {
    var off := SwitchedOff(s.env, s.sh.queue[a].draft.hostId);
    Reconfigured(s, off);
    ApprovalRunsExactly(Apply(s, Configure(off)), a, off, outcome);
    var s2 := Apply(Apply(s, Configure(off)), Approve(a));
    ThenOne(s2, ApproverRun(a, outcome), []);
    Chain(s, Configure(off), Approve(a), [ApproverRun(a, outcome)] + []);
    steps := [Configure(off)] + ([Approve(a)] + ([ApproverRun(a, outcome)] + []));
  }

  lemma ExpiredRuns(s: State, order: seq<Aid>, outcome: Outcome) returns (steps: seq<Step>)
    requires s.sweep.Idle? && ListsExpired(s, order) && order != []
    requires s.sh.queue[order[0]].draft.mode == Optimistic && RecheckOk(s.env, s.now, s.sh.queue[order[0]])
    ensures steps == [SweepBegin(order)] + ([SweepTake] + ([SweepRun(outcome)] + []))
    ensures Feasible(s, steps) && RunsUnder(s, After(s, steps), s.env, s.sh.queue[order[0]].draft)
  {
    FirstOfBatch(s, order);
    ExpiryRunsExactly(DoSweepBegin(s, order), s.env, outcome);
    var s2 := DoSweepTake(DoSweepBegin(s, order));
    assert s2.env == s.env;
    ThenOne(s2, SweepRun(outcome), []);
    Chain(s, SweepBegin(order), SweepTake, [SweepRun(outcome)] + []);
    steps := [SweepBegin(order)] + ([SweepTake] + ([SweepRun(outcome)] + []));
  }

  /** The same when an optimistic item expires. */
  lemma SwitchedOffHostRunsExpired(s: State, order: seq<Aid>, outcome: Outcome) returns (steps: seq<Step>)
    requires Good(s) && s.sweep.Idle? && ListsExpired(s, order) && order != []
    requires s.sh.queue[order[0]].draft.mode == Optimistic && RecheckOk(s.env, s.now, s.sh.queue[order[0]])
    ensures var d := s.sh.queue[order[0]].draft;
            var off := SwitchedOff(s.env, d.hostId);
            && steps == [Configure(off)] + ([SweepBegin(order)] + ([SweepTake] + ([SweepRun(outcome)] + [])))
            && Feasible(s, steps) && RunsUnder(s, After(s, steps), off, d)
  {
    var it := s.sh.queue[order[0]];
    var off := SwitchedOff(s.env, it.draft.hostId);
    RecheckIgnoresSwitches(s.env, it.draft.hostId, s.now, it);
    Reconfigured(s, off);
    var s1 := s.(env := off);
    var rest := ExpiredRuns(s1, order, outcome);
    ThenOne(s, Configure(off), rest);
    steps := [Configure(off)] + rest;
  }

  lemma Submitted(env: Env, now: real, req: Request)
    requires Admit(env, now, req).Enqueue?
    ensures Enabled(Start(env, now), Submit(0, req, false))
    ensures var s := DoSubmit(Start(env, now), 0, req, false);
            && Good(s) && s.sweep.Idle? && IsPending(s.sh, 0) && s.sh.queue[0].draft == Admit(env, now, req).draft
            && s.env == env && s.now == now && s.log == []
  {
    StartInv(env, now);
    StepKeeps(Start(env, now), Submit(0, req, false));
    StepGrounded(Start(env, now), Submit(0, req, false));
  }

  /** From an empty gate: a request is queued, its host is switched off and to dry run, and then it runs there. */
  lemma ADryRunHostIsWrittenTo(env: Env, now: real, req: Request, outcome: Outcome) returns (steps: seq<Step>)
    requires Admit(env, now, req).Enqueue? && Admit(env, now, req).draft.hostId in env.hosts
    requires AgentMayAct(env, now, Admit(env, now, req).draft.agentId)
    ensures var d := Admit(env, now, req).draft;
            && Feasible(Start(env, now), steps)
            && RunsUnder(Start(env, now), Reached(env, now, steps), SwitchedOff(env, d.hostId), d)
  {
    var start, submit := Start(env, now), Submit(0, req, false);
    Submitted(env, now, req);
    var s := DoSubmit(start, 0, req, false);
    var rest := SwitchedOffHostRunsApproved(s, 0, outcome);
    ThenOne(start, submit, rest);
    steps := [submit] + rest;
  }
}
