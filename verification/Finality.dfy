/** Which decisions are final: exactly when an approved item can still be rejected, and which items are done with. */
module Finality {
  import opened Options
  import DenyRules
  import Params
  import opened Registry
  import opened CommandSets
  import opened Executor
  import opened Approvals
  import opened Protocol
  import opened Invariant
  import opened Safety
  import opened Grounds
  import opened Theorems
  import opened Wakeups

  predicate IsApproved(s: State, a: Aid)
  {
    a in s.sh.queue && s.sh.queue[a].status == Approved
  }

  /** The item stands in the sweep's batch, and its re-check is still to come. */
  predicate AwaitsRecheck(s: State, a: Aid)
  {
    && Protocol.At(s)
    && exists k :: s.sweep.pos <= k < |s.sweep.batch| && s.sweep.batch[k].aid == a
                   && (k == s.sweep.pos ==> s.sweep.point.Take?)
  }

  /** The projection on the id says the same. */
  lemma AwaitsIsBefore(s: State, a: Aid)
    requires BatchOk(s.sweep)
    ensures AwaitsRecheck(s, a) <==> BeforeRecheck(Of(s, a).held)
  {
    if s.sweep.Walking? {
      var k := Find(s.sweep.batch, s.sweep.pos, a);
      if k.Some? {
        assert s.sweep.batch[k.value].aid == a;
      }
    }
  }

  // ----- an approval that stays -----

  lemma CommittedStays(s: State, a: Aid, more: seq<Step>)
    requires Good(s) && Feasible(s, more) && IsApproved(s, a) && !AwaitsRecheck(s, a)
    ensures IsApproved(After(s, more), a) && !AwaitsRecheck(After(s, more), a)
  {
    AwaitsIsBefore(s, a);
    RunKeeps(s, more);
    assert Later(Of(s, a), Of(After(s, more), a));
    AwaitsIsBefore(After(s, more), a);
  }

  // ----- an approval that can be taken back -----

  /** The registries with the host stripped of everything it allows. */
  function Stripped(env: Env, hostId: string): Env
  {
    env.(hosts := map[hostId := Host(hostId, true, false, Auto, 0.0, [], [], "")], sets := map[])
  }

  lemma StrippedFailsRecheck(env: Env, now: real, it: Item)
    ensures it.draft.hostId in Stripped(env, it.draft.hostId).hosts
    ensures !RecheckOk(Stripped(env, it.draft.hostId), now, it)
  {
    var env' := Stripped(env, it.draft.hostId);
    assert HostAllow(env'.sets, env'.hosts[it.draft.hostId]) == {};
  }

  /** The sweep can come to the item without anything happening to it, or to the registries, before. */
  lemma ReachTurn(s: State, a: Aid) returns (more: seq<Step>)
    requires Good(s) && IsApproved(s, a) && AwaitsRecheck(s, a)
    ensures AllAdvance(more) && Feasible(s, more)
    ensures var s' := After(s, more);
            && Good(s') && Protocol.At(s') && s'.sweep.point.Take? && Current(s').aid == a && IsApproved(s', a)
            && s'.env == s.env && Get(s'.sh.queue, a) == Get(s.sh.queue, a)
    decreases |s.sweep.batch| - s.sweep.pos
  {
    if Current(s).aid == a && s.sweep.point.Take? {
      more := [];
    } else {
      var k :| s.sweep.pos <= k < |s.sweep.batch| && s.sweep.batch[k].aid == a
               && (k == s.sweep.pos ==> s.sweep.point.Take?);
      assert k > s.sweep.pos;
      HeldApproved(s, k);
      var first := FinishItem(s);
      var s' := After(s, first);
      RunKeeps(s, first);
      assert Unmoved(s, s', a);
      assert s'.sweep.batch == s.sweep.batch && s'.sweep.pos == s.sweep.pos + 1;
      HeldApproved(s', k);
      var rest := ReachTurn(s', a);
      AfterConcat(s, first, rest);
      more := first + rest;
    }
  }

  /** An item the sweep has yet to take is approved exactly if its timeout approved it, and as in the batch. */
  lemma HeldApproved(s: State, k: nat)
    requires Inv(s) && Protocol.At(s) && s.sweep.pos <= k < |s.sweep.batch|
    requires k == s.sweep.pos ==> s.sweep.point.Take?
    ensures AwaitsRecheck(s, s.sweep.batch[k].aid)
    ensures IsApproved(s, s.sweep.batch[k].aid) <==> s.sweep.batch[k].auto == Some(TimeoutApprove)
  {
    var b := s.sweep.batch[k];
    AwaitsIsBefore(s, b.aid);
    assert LocalOk(b.aid, Of(s, b.aid), s.now);
    assert Find(s.sweep.batch, s.sweep.pos, b.aid) == Some(k);
    assert b.auto.value.TimeoutApprove? || b.auto.value.TimeoutReject?;
  }

  /** At its turn, an item whose re-check fails is rejected. */
  lemma RejectAtTurn(s: State)
    requires Good(s) && Protocol.At(s) && s.sweep.point.Take? && IsApproved(s, Current(s).aid)
    requires Current(s).draft.hostId in s.env.hosts && !RecheckOk(s.env, s.now, Current(s))
    ensures Enabled(s, SweepTake)
    ensures var a, s' := Current(s).aid, DoSweepTake(s);
            a in s'.sh.queue && s'.sh.queue[a].status == Status.Rejected && AnswerFor(s'.sh, a) == RejectedByOperator
  {
    CurrentHeld(s);
    HeldApproved(s, s.sweep.pos);
  }

  /**
   * From any point at which others than the sweep can act: an administrator takes everything off the host's whitelist,
   * and when the sweep comes to the item, it rejects it.
   */
  lemma CanBeTakenBack(s: State, a: Aid) returns (more: seq<Step>)
    requires Good(s) && !Underway(s) && IsApproved(s, a) && AwaitsRecheck(s, a)
    ensures Feasible(s, more)
    ensures a in After(s, more).sh.queue && After(s, more).sh.queue[a].status == Status.Rejected
  {
    var hostId := s.sh.queue[a].draft.hostId;
    var s1 := Apply(s, Configure(Stripped(s.env, hostId)));
    StepKeeps(s, Configure(s1.env));
    StepGrounded(s, Configure(s1.env));
    var turn := ReachTurn(s1, a);
    var s2 := After(s1, turn);
    CurrentHeld(s2);
    assert HeldOk(s2.sh.queue[a], Of(s2, a));
    StrippedFailsRecheck(s.env, s2.now, Current(s2));
    RejectAtTurn(s2);
    ThenOne(s2, SweepTake, []);
    AfterConcat(s1, turn, [SweepTake] + []);
    ThenOne(s, Configure(s1.env), turn + ([SweepTake] + []));
    more := [Configure(s1.env)] + (turn + ([SweepTake] + []));
  }

  /** The item is approved, and so in every continuation. */
  ghost predicate StaysApproved(s: State, a: Aid)
  {
    forall more :: Feasible(s, more) ==> IsApproved(After(s, more), a)
  }

  lemma StaysIsNow(s: State, a: Aid)
    requires StaysApproved(s, a)
    ensures IsApproved(s, a)
  {
    var none: seq<Step> := [];
    assert Feasible(s, none) && After(s, none) == s;
  }

  /**
   * Whenever others than the sweep can act: an item stays approved in every continuation exactly when it is approved
   * and the sweep does not hold it before its re-check.
   */
  lemma ApprovedIsFinalExactly(s: State, a: Aid)
    requires Good(s) && !Underway(s)
    ensures StaysApproved(s, a) <==> IsApproved(s, a) && !AwaitsRecheck(s, a)
  {
    if StaysApproved(s, a) {
      StaysIsNow(s, a);
    }
    if IsApproved(s, a) && AwaitsRecheck(s, a) {
      var more := CanBeTakenBack(s, a);
      assert Feasible(s, more) && !IsApproved(After(s, more), a);
    }
    if IsApproved(s, a) && !AwaitsRecheck(s, a) {
      forall more | Feasible(s, more)
        ensures IsApproved(After(s, more), a)
      {
        CommittedStays(s, a, more);
      }
    }
  }

  /** The two steps at which a waiter gives its answer. */
  predicate Answers(s: State, st: Step, a: Aid)
  {
    (st == WaiterStart(a) || st == WaiterEnd(a)) && !IsPending(s.sh, a) && AnswerFor(s.sh, a).StillExecuting?
  }

  lemma AnswerGiven(s: State, st: Step, a: Aid)
    requires Inv(s) && Enabled(s, st) && Answers(s, st, a)
    ensures var s' := Apply(s, st);
            && IsApproved(s, a) && s.sh.queue[a].result == None
            && a in s'.waiters && s'.waiters[a].Answered? && s'.waiters[a].answer == StillExecuting
            && s'.sweep == s.sweep && s'.skipped == s.skipped && s'.sh.queue == s.sh.queue && !Underway(s)
  {
    assert LocalOk(a, Of(s, a), s.now);
  }

  /**
   * A waiter that answers "approved, still executing" tells of an item that is approved without a result; the approval
   * is final exactly when the sweep does not hold the item before its re-check at that moment.
   */
  lemma StillExecutingIsFinalExactly(s: State, st: Step, a: Aid)
    requires Good(s) && Enabled(s, st) && Answers(s, st, a)
    ensures var s' := Apply(s, st);
            && IsApproved(s, a) && s.sh.queue[a].result == None
            && a in s'.waiters && s'.waiters[a].Answered? && s'.waiters[a].answer == StillExecuting
            && (StaysApproved(s', a) <==> !AwaitsRecheck(s, a))
  {
    AnswerGiven(s, st, a);
    StepKeeps(s, st);
    StepGrounded(s, st);
    ApprovedIsFinalExactly(Apply(s, st), a);
  }

  lemma ApprovedAwaiting(s: State, a: Aid)
    requires Inv(s) && IsApproved(s, a) && AwaitsRecheck(s, a)
    ensures s.sh.queue[a].auto == Some(TimeoutApprove) && s.sh.queue[a].result == None
  {
    AwaitsIsBefore(s, a);
    assert LocalOk(a, Of(s, a), s.now);
    var auto := s.sh.queue[a].auto;
    assert auto.Some? ==> auto.value.TimeoutApprove?;
  }

  /** The announced approval can be taken back: after the answer the item is rejected, and it is never executed. */
  lemma StillExecutingIsNotFinal(s: State, a: Aid) returns (steps: seq<Step>)
    requires Good(s) && !Underway(s) && a in s.waiters && s.waiters[a].Asleep? && a !in s.sh.fired
    requires IsApproved(s, a) && AwaitsRecheck(s, a)
    ensures Feasible(s, steps) && Good(After(s, steps))
    ensures var s' := After(s, steps);
            && a in s'.waiters && s'.waiters[a] == Answered(StillExecuting, false)
            && a in s'.sh.queue && s'.sh.queue[a].status == Status.Rejected
            && s'.sh.queue[a].auto == Some(TimeoutApprove)
  {
    ApprovedAwaiting(s, a);
    var s1 := DoWaiterEnd(s, a);
    StepKeeps(s, WaiterEnd(a));
    StepGrounded(s, WaiterEnd(a));
    assert s1.sweep == s.sweep && s1.skipped == s.skipped && s1.sh.queue == s.sh.queue;
    var more := CanBeTakenBack(s1, a);
    ThenOne(s, WaiterEnd(a), more);
    RunKeeps(s1, more);
    assert Later(Of(s1, a), Of(After(s1, more), a));
    steps := [WaiterEnd(a)] + more;
  }

  // ----- items that are done with -----

  /** Decided, and neither an approver nor the live sweep has it. */
  predicate IsClosed(s: State, a: Aid)
  {
    && a in s.sh.queue && s.sh.queue[a].status != Pending && a !in s.approvers
    && !(Protocol.At(s) && exists k :: s.sweep.pos <= k < |s.sweep.batch| && s.sweep.batch[k].aid == a)
  }

  lemma ClosedIsClosed(s: State, a: Aid)
    requires Inv(s)
    ensures IsClosed(s, a) <==> Closed(Of(s, a))
  {
    if s.sweep.Walking? {
      var k := Find(s.sweep.batch, s.sweep.pos, a);
      if k.Some? {
        assert s.sweep.batch[k.value].aid == a;
      }
    }
  }

  /** Nothing ever happens to such an item again: its record stays, and it is executed no more. */
  lemma ClosedForGood(s: State, a: Aid, more: seq<Step>)
    requires Good(s) && Feasible(s, more) && IsClosed(s, a)
    ensures var s' := After(s, more);
            IsClosed(s', a) && s'.sh.queue[a] == s.sh.queue[a] && RunsOf(s'.log, a) == RunsOf(s.log, a)
  {
    ClosedIsClosed(s, a);
    RunKeeps(s, more);
    ClosedIsClosed(After(s, more), a);
    assert Later(Of(s, a), Of(After(s, more), a));
  }

  /** An item an aborted sweep dropped keeps its status and result for good, and is executed no more. */
  lemma DroppedForGood(s: State, a: Aid, more: seq<Step>)
    requires Good(s) && Feasible(s, more) && a in s.dropped
    ensures a in s.sh.queue && s.sh.queue[a].status != Pending
    ensures var s' := After(s, more);
            && a in s'.sh.queue && s'.sh.queue[a] == s.sh.queue[a] && RunsOf(s'.log, a) == RunsOf(s.log, a)
  {
    assert LocalOk(a, Of(s, a), s.now);
    RunKeeps(s, more);
    assert Later(Of(s, a), Of(After(s, more), a));
  }

  // ----- a run that takes an announced approval back -----

  /** A request that is queued for optimistic approval. */
  ghost predicate Optimistically(env: Env, now: real, req: Request)
  {
    Admit(env, now, req).Enqueue? && Admit(env, now, req).draft.mode == Optimistic
  }

  /** Two such requests, the second with a waiter, and then silence until both have expired. */
  function Lull(req: Request, later: real): seq<Step>
  {
    [Submit(0, req, false)] + ([Submit(1, req, true)] + ([WaiterStart(1)] + ([Tick(later)] + [])))
  }

  lemma LullExpires(env: Env, now: real, req: Request, later: real)
    requires Optimistically(env, now, req) && later >= now && later - now > Admit(env, now, req).draft.timeout
    ensures Feasible(Start(env, now), Lull(req, later))
    ensures var s := Reached(env, now, Lull(req, later));
            var draft := Admit(env, now, req).draft;
            && s.sweep.Idle? && s.now == later && s.env == env
            && s.sh.queue == map[0 := NewItem(0, draft, now), 1 := NewItem(1, draft, now)]
            && 1 in s.waiters && s.waiters[1].Asleep?
  {
    var s0 := Start(env, now);
    var s1 := DoSubmit(s0, 0, req, false);
    var s2 := DoSubmit(s1, 1, req, true);
    var s3 := DoWaiterStart(s2, 1);
    ThenOne(s3, Tick(later), []);
    ThenOne(s2, WaiterStart(1), [Tick(later)] + []);
    ThenOne(s1, Submit(1, req, true), [WaiterStart(1)] + ([Tick(later)] + []));
    ThenOne(s0, Submit(0, req, false), [Submit(1, req, true)] + ([WaiterStart(1)] + ([Tick(later)] + [])));
  }

  /**
   * This happens: two optimistic items expire together, the first one's re-check passes, and while it is being executed
   * the second one's waiter gives up and its command is taken off the whitelist.
   */
  lemma TheGapIsReachable(s: State, order: seq<Aid>) returns (steps: seq<Step>)
    requires Good(s) && s.sweep.Idle? && ListsExpired(s, order) && |order| >= 2
    requires s.sh.queue[order[0]].draft.mode == Optimistic && RecheckOk(s.env, s.now, s.sh.queue[order[0]])
    requires var a := order[1]; a in s.waiters && s.waiters[a].Asleep? && s.sh.queue[a].draft.mode == Optimistic
    ensures Feasible(s, steps) && Good(After(s, steps))
    ensures var a, s' := order[1], After(s, steps);
            && a in s'.waiters && s'.waiters[a] == Answered(StillExecuting, false)
            && a in s'.sh.queue && s'.sh.queue[a].status == Status.Rejected
            && s'.sh.queue[a].auto == Some(TimeoutApprove)
  {
    var a := order[1];
    var s1 := DoSweepBegin(s, order);
    BegunSweep(s, order);
    var s2 := DoSweepTake(s1);
    RecheckPasses(s1);
    TwoSteps(s, SweepBegin(order), SweepTake);
    assert s2.sweep.batch[1].aid == a;
    var more := StillExecutingIsNotFinal(s2, a);
    ThenOne(s1, SweepTake, more);
    ThenOne(s, SweepBegin(order), [SweepTake] + more);
    steps := [SweepBegin(order)] + ([SweepTake] + more);
  }

  lemma BegunSweep(s: State, order: seq<Aid>)
    requires Inv(s) && s.sweep.Idle? && ListsExpired(s, order) && |order| >= 2
    ensures var s1 := DoSweepBegin(s, order);
            && Protocol.At(s1) && s1.sweep.point.Take? && |s1.sweep.batch| == |order|
            && (forall k :: 0 <= k < |order| ==> s1.sweep.batch[k] == Lapsed(s.sh.queue[order[k]])
                                                 && s1.sweep.batch[k].aid == order[k]
                                                 && Get(s1.sh.queue, order[k]) == Some(s1.sweep.batch[k])
                                                 && order[k] !in s1.sh.fired)
  {
    QueueIds(s);
    forall k | 0 <= k < |order|
      ensures order[k] !in s.sh.fired
    {
      NotYetFired(s, order[k]);
    }
  }

  lemma TwoSteps(s: State, one: Step, two: Step)
    requires Good(s) && Enabled(s, one) && Enabled(Apply(s, one), two)
    ensures Good(Apply(Apply(s, one), two))
  {
    StepKeeps(s, one);
    StepGrounded(s, one);
    StepKeeps(Apply(s, one), two);
    StepGrounded(Apply(s, one), two);
  }

  lemma TakenBackRun(env: Env, now: real, req: Request, later: real) returns (steps: seq<Step>)
    requires Optimistically(env, now, req) && later >= now && later - now > Admit(env, now, req).draft.timeout
    requires RecheckOk(env, later, NewItem(0, Admit(env, now, req).draft, now))
    ensures Feasible(Start(env, now), steps)
    ensures var s := Reached(env, now, steps);
            && 1 in s.waiters && s.waiters[1] == Answered(StillExecuting, false)
            && 1 in s.sh.queue && s.sh.queue[1].status == Status.Rejected
            && s.sh.queue[1].auto == Some(TimeoutApprove)
  {
    LullExpires(env, now, req, later);
    var first := Lull(req, later);
    ReachedIsGood(env, now, first);
    var rest := TheGapIsReachable(Reached(env, now, first), [0, 1]);
    AfterConcat(Start(env, now), first, rest);
    steps := first + rest;
  }

  /**
   * From an empty gate: two requests queued for optimistic approval expire, the second one's waiter is told that its
   * command is approved and still executing, and the item ends up rejected and never run.
   */
  lemma AnAnnouncedApprovalIsTakenBack(env: Env, now: real, req: Request, later: real) returns (steps: seq<Step>)
    requires Optimistically(env, now, req) && later >= now && later - now > Admit(env, now, req).draft.timeout
    requires RecheckOk(env, later, NewItem(0, Admit(env, now, req).draft, now))
    ensures Feasible(Start(env, now), steps)
    ensures var s := Reached(env, now, steps);
            && 1 in s.waiters && s.waiters[1] == Answered(StillExecuting, false)
            && 1 in s.sh.queue && s.sh.queue[1].status == Status.Rejected
            && s.sh.queue[1].auto == Some(TimeoutApprove)
            && forall k :: 0 <= k < |s.log| ==> s.log[k].it.aid != 1
  {
    steps := TakenBackRun(env, now, req, later);
    ReachedIsGood(env, now, steps);
    RejectedStays(Reached(env, now, steps), 1, []);
  }

  /** A gate with one agent, one host and one whitelisted command, approved optimistically after five minutes. */
  function ExampleGate(words: DenyRules.Tokenizer, matches: Params.Matcher): Env
  {
    Env(map["web" := Host("web", true, false, Optimistic, 300.0, [], [Entry("uptime", None, map[])], "")],
        map["ops" := Agent("ops", true, 0, 0.0, [], [])], map[], words, matches)
  }

  /** The agent's command over MCP, on a token accepted while the agent was active. */
  function ExampleRequest(): Request
  {
    Exec(Mcp, "web", "uptime", "ops", map[], true, true,
         Accepted(map["ops" := Agent("ops", true, 0, 0.0, [], [])], 999.0))
  }

  lemma ExampleIsQueued(words: DenyRules.Tokenizer, matches: Params.Matcher, now: real, later: real)
    ensures var env, req := ExampleGate(words, matches), ExampleRequest();
            && Optimistically(env, now, req) && Admit(env, now, req).draft.timeout == 300.0
            && RecheckOk(env, later, NewItem(0, Admit(env, now, req).draft, now))
  {
    var env, req := ExampleGate(words, matches), ExampleRequest();
    var host, agent := env.hosts["web"], Some(env.agents["ops"]);
    assert Acting(env, "ops") == agent;
    assert host.whitelist[0] in host.whitelist;
    assert HostAllow(env.sets, host) == {"uptime"};
    assert Denied(env.sets, host, agent) == {};
    assert Authorized(env.sets, host, agent, "uptime");
    assert WhitelistEntry(env.sets, host, "uptime") == Some(host.whitelist[0]);
  }

  /** One such run, on a gate with a single host: the announced approval of command 1 is taken back. */
  lemma ATakenBackApproval(words: DenyRules.Tokenizer, matches: Params.Matcher) returns (steps: seq<Step>)
    ensures var env := ExampleGate(words, matches);
            && Feasible(Start(env, 1000.0), steps)
            && var s := Reached(env, 1000.0, steps);
            && 1 in s.waiters && s.waiters[1] == Answered(StillExecuting, false)
            && 1 in s.sh.queue && s.sh.queue[1].status == Status.Rejected
            && s.sh.queue[1].auto == Some(TimeoutApprove)
            && forall k :: 0 <= k < |s.log| ==> s.log[k].it.aid != 1
  {
    ExampleIsQueued(words, matches, 1000.0, 1301.0);
    steps := AnAnnouncedApprovalIsTakenBack(ExampleGate(words, matches), 1000.0, ExampleRequest(), 1301.0);
  }
}
