/** The main results on the approval protocol: what holds in every run, whatever the interleaving. */
module Theorems {
  import opened Options
  import opened Registry
  import opened CommandSets
  import opened Executor
  import opened AdmissionStages
  import opened Approvals
  import opened Protocol
  import opened Invariant
  import opened Safety
  import opened Grounds

  // ----- from one step to a run -----

  ghost predicate Good(s: State)
  {
    Inv(s) && Grounded(s)
  }

  lemma LaterTrans(l: Local, l': Local, l'': Local)
    requires Later(l, l') && Later(l', l'')
    ensures Later(l, l'')
  {
  }

  lemma LaterSelf(l: Local)
    ensures Later(l, l)
  {
  }

  /** Every run keeps the invariant, and every item only moves forward along it. */
  lemma {:induction false} RunKeeps(s: State, steps: seq<Step>)
    requires Good(s) && Feasible(s, steps)
    ensures Good(After(s, steps))
    ensures forall a :: Later(Of(s, a), Of(After(s, steps), a))
    decreases |steps|
  {
    if steps == [] {
      forall a ensures Later(Of(s, a), Of(s, a)) {
        LaterSelf(Of(s, a));
      }
    } else {
      var s' := Apply(s, steps[0]);
      StepKeeps(s, steps[0]);
      StepGrounded(s, steps[0]);
      RunKeeps(s', steps[1..]);
      forall a ensures Later(Of(s, a), Of(After(s, steps), a)) {
        LaterTrans(Of(s, a), Of(s', a), Of(After(s', steps[1..]), a));
      }
    }
  }

  /** The state a fresh gate reaches by some steps. */
  ghost function Reached(env: Env, now: real, steps: seq<Step>): State
    requires Feasible(Start(env, now), steps)
  {
    After(Start(env, now), steps)
  }

  lemma ReachedIsGood(env: Env, now: real, steps: seq<Step>)
    requires Feasible(Start(env, now), steps)
    ensures Good(Reached(env, now, steps))
  {
    StartInv(env, now);
    RunKeeps(Start(env, now), steps);
  }

  // ----- at most once -----

  lemma {:induction false} RunsOfHas(log: seq<Run>, k: nat)
    requires k < |log|
    ensures log[k] in RunsOf(log, log[k].it.aid)
  {
    if k < |log| - 1 {
      RunsOfHas(log[..|log| - 1], k);
    }
  }

  lemma {:induction false} RunsOfTwice(log: seq<Run>, i: nat, j: nat)
    requires i < j < |log| && log[i].it.aid == log[j].it.aid
    ensures |RunsOf(log, log[i].it.aid)| >= 2
  {
    if j < |log| - 1 {
      RunsOfTwice(log[..|log| - 1], i, j);
    } else {
      RunsOfHas(log[..j], i);
    }
  }

  lemma {:induction false} RunsOfOnly(log: seq<Run>, a: Aid)
    ensures forall r :: r in RunsOf(log, a) ==> r in log && r.it.aid == a
  {
    if log != [] {
      RunsOfOnly(log[..|log| - 1], a);
    }
  }

  /**
   * Under every interleaving, no item is executed twice, an executed item is queued and approved, and a stored
   * result is the outcome of the item's one execution.
   */
  lemma AtMostOnce(env: Env, now: real, steps: seq<Step>)
    requires Feasible(Start(env, now), steps)
    ensures var s := Reached(env, now, steps);
            && (forall i, j :: 0 <= i < j < |s.log| ==> s.log[i].it.aid != s.log[j].it.aid)
            && (forall k :: 0 <= k < |s.log| ==>
                  s.log[k].it.aid in s.sh.queue && s.sh.queue[s.log[k].it.aid].status == Approved)
            && (forall a :: a in s.sh.queue && s.sh.queue[a].result.Some? ==>
                  exists r :: r in s.log && r.it.aid == a && r.outcome == s.sh.queue[a].result.value)
  {
    var s := Reached(env, now, steps);
    ReachedIsGood(env, now, steps);
    forall i, j | 0 <= i < j < |s.log| ensures s.log[i].it.aid != s.log[j].it.aid {
      assert LocalOk(s.log[i].it.aid, Of(s, s.log[i].it.aid), s.now);
      if s.log[i].it.aid == s.log[j].it.aid {
        RunsOfTwice(s.log, i, j);
      }
    }
    forall k | 0 <= k < |s.log|
      ensures s.log[k].it.aid in s.sh.queue && s.sh.queue[s.log[k].it.aid].status == Approved {
      ExecutedItem(s, k);
    }
    forall a | a in s.sh.queue && s.sh.queue[a].result.Some?
      ensures exists r :: r in s.log && r.it.aid == a && r.outcome == s.sh.queue[a].result.value {
      assert LocalOk(a, Of(s, a), s.now);
      RunsOfOnly(s.log, a);
      assert RunsOf(s.log, a)[0] in s.log;
    }
  }

  lemma OneRun(runs: seq<Run>, r: Run)
    requires r in runs && |runs| <= 1
    ensures runs == [r]
  {
  }

  /** The item behind an execution. */
  lemma ExecutedItem(s: State, k: nat)
    requires Good(s) && k < |s.log|
    ensures var r := s.log[k];
            && r.it.aid in s.sh.queue && Of(s, r.it.aid).item == Some(s.sh.queue[r.it.aid])
            && Of(s, r.it.aid).runs == [r] && RunsOk(s.sh.queue[r.it.aid], [r])
  {
    var r := s.log[k];
    var l := Of(s, r.it.aid);
    RunsOfHas(s.log, k);
    assert LocalOk(r.it.aid, l, s.now);
    assert l.item.Some?;
    OneRun(l.runs, r);
  }

  // ----- the status order -----

  lemma RejectedStays(s: State, a: Aid, more: seq<Step>)
    requires Good(s) && Feasible(s, more) && a in s.sh.queue && s.sh.queue[a].status == Status.Rejected
    ensures var s' := After(s, more);
            && a in s'.sh.queue && s'.sh.queue[a] == s.sh.queue[a]
            && forall k :: 0 <= k < |s'.log| ==> s'.log[k].it.aid != a
  {
    RunKeeps(s, more);
    var s' := After(s, more);
    assert Later(Of(s, a), Of(s', a));
    forall k | 0 <= k < |s'.log| ensures s'.log[k].it.aid != a {
      ExecutedItem(s', k);
    }
  }

  /** A rejected item is final in every continuation: it keeps its status and is never executed. */
  lemma RejectedIsFinal(env: Env, now: real, steps: seq<Step>, a: Aid, more: seq<Step>)
    requires Feasible(Start(env, now), steps) && Feasible(Reached(env, now, steps), more)
    requires a in Reached(env, now, steps).sh.queue && Reached(env, now, steps).sh.queue[a].status == Status.Rejected
    ensures var s := After(Reached(env, now, steps), more);
            && a in s.sh.queue && s.sh.queue[a] == Reached(env, now, steps).sh.queue[a]
            && forall k :: 0 <= k < |s.log| ==> s.log[k].it.aid != a
  {
    ReachedIsGood(env, now, steps);
    RejectedStays(Reached(env, now, steps), a, more);
  }

  lemma ResultStays(a: Aid, l: Local, now: real, l': Local, now': real)
    requires LocalOk(a, l, now) && LocalOk(a, l', now') && Later(l, l') && l.item.Some?
    requires l.waiter.Some? && l.waiter.value.Answered? && l.waiter.value.answer.Result?
    ensures var answer := l.waiter.value.answer;
            && l'.item.Some? && l'.item.value.status == Approved && l'.item.value.result == Some(answer.outcome)
            && l'.runs != [] && l'.runs[0].outcome == answer.outcome
            && (answer.automatic <==> l'.runs[0].decider == Timeout)
  {
    var auto := l.item.value.auto;
    assert auto.Some? ==> auto.value.TimeoutApprove?;
    assert l'.runs[0].decider == Operator || l'.runs[0].decider == Timeout;
  }

  /** What a waiter told its client stays true: a result is the item's for good, a rejection means it never runs. */
  lemma AnswersStayTrue(env: Env, now: real, steps: seq<Step>, a: Aid, more: seq<Step>)
    requires Feasible(Start(env, now), steps) && Feasible(Reached(env, now, steps), more)
    requires a in Reached(env, now, steps).waiters && Reached(env, now, steps).waiters[a].Answered?
    ensures var answer := Reached(env, now, steps).waiters[a].answer;
            var s := After(Reached(env, now, steps), more);
            && a in s.sh.queue
            && (answer.RejectedByTimeout? || answer.RejectedByOperator? ==>
                  s.sh.queue[a].status == Status.Rejected && forall k :: 0 <= k < |s.log| ==> s.log[k].it.aid != a)
            && (answer.Result? ==>
                  && s.sh.queue[a].status == Approved && s.sh.queue[a].result == Some(answer.outcome)
                  && exists r :: r in s.log && r.it.aid == a && r.outcome == answer.outcome
                                 && (answer.automatic <==> r.decider == Timeout))
            && !answer.Unknown?
  {
    var s := Reached(env, now, steps);
    ReachedIsGood(env, now, steps);
    RunKeeps(s, more);
    var s' := After(s, more);
    var answer := s.waiters[a].answer;
    assert LocalOk(a, Of(s, a), s.now);
    if answer.RejectedByTimeout? || answer.RejectedByOperator? {
      RejectedIsFinal(env, now, steps, a, more);
    } else if answer.Result? {
      ResultStays(a, Of(s, a), s.now, Of(s', a), s'.now);
      RunsOfOnly(s'.log, a);
      assert RunsOf(s'.log, a)[0] in RunsOf(s'.log, a);
    } else {
      assert Later(Of(s, a), Of(s', a));
    }
  }

  // ----- wake-ups -----

  /**
   * No lost wake-up: a waiter asleep on an event nobody has set waits for an item that is still pending, or that an
   * in-flight approver or the live sweep holds, or that an aborted sweep dropped; and its event is registered, so
   * that whoever signals the item wakes it.
   */
  lemma NoLostWakeUp(env: Env, now: real, steps: seq<Step>, a: Aid)
    requires Feasible(Start(env, now), steps)
    requires var s := Reached(env, now, steps); a in s.waiters && s.waiters[a].Asleep? && a !in s.sh.fired
    ensures var s := Reached(env, now, steps);
            && a in s.sh.events && a in s.sh.queue
            && (IsPending(s.sh, a) || a in s.approvers || a in s.dropped
                || (Protocol.At(s) && exists k :: s.sweep.pos <= k < |s.sweep.batch| && s.sweep.batch[k].aid == a))
  {
    var s := Reached(env, now, steps);
    ReachedIsGood(env, now, steps);
    assert LocalOk(a, Of(s, a), s.now);
  }

  /** A waiter its event woke finds a decided item, and the result if a hand-made approval ran it. */
  lemma WokenFindsDecision(env: Env, now: real, steps: seq<Step>, a: Aid)
    requires Feasible(Start(env, now), steps)
    requires var s := Reached(env, now, steps); a in s.waiters && s.waiters[a].Asleep? && a in s.sh.fired
    ensures var s := Reached(env, now, steps);
            && a in s.sh.queue && s.sh.queue[a].status != Pending
            && (s.sh.queue[a].status == Approved && s.sh.queue[a].auto == None ==>
                  s.sh.queue[a].result.Some? && AnswerFor(s.sh, a) == Result(s.sh.queue[a].result.value, false))
  {
    var s := Reached(env, now, steps);
    ReachedIsGood(env, now, steps);
    assert LocalOk(a, Of(s, a), s.now);
  }

  // ----- why an execution happened -----

  /**
   * Every queued execution is justified. The item was submitted by a request that was cleared then (authorized for
   * an active agent on an enabled host without dry run, one of those the agent is bound to if it came over MCP, its text
   * past the deny rules); what ran is that very text, on
   * the host it was cleared for as the registry has it at the execution; and an operator decided while it was pending,
   * or it was optimistic, timed out, and passed the re-check. In particular a strict or pessimistic item runs only by
   * an operator's hand.
   */
  lemma EveryRunIsJustified(env: Env, now: real, steps: seq<Step>, k: nat)
    requires Feasible(Start(env, now), steps) && k < |Reached(env, now, steps).log|
    ensures var s := Reached(env, now, steps);
            var r := s.log[k];
            && r.it.aid in s.sh.queue && r.it.aid in s.submissions
            && var it, sub := s.sh.queue[r.it.aid], s.submissions[r.it.aid];
            && Admit(sub.env, sub.now, sub.req) == Enqueue(it.draft) && it.createdAt == sub.now
            && Cleared(sub.env, sub.now, sub.req, it.draft.resolved, it.draft.task, it.draft.mode)
            && it.draft.mode != Auto
            && it.draft.hostId == sub.env.hosts[sub.req.hostId].id
            && r.action == QueuedAction(r.env, it.draft.hostId, it.draft.resolved, it.draft.task)
            && (sub.req.Exec? <==> it.draft.task == Command)
            && (!FromConsole(sub.req) && !FromRest(sub.req) && sub.req.agentId != "" && sub.req.agentId in sub.env.agents
                && sub.env.agents[sub.req.agentId].allowedHosts != [] ==>
                  sub.req.hostId in sub.env.agents[sub.req.agentId].allowedHosts)
            && (if r.decider == Operator
                then r.why.before.status == Pending && r.why.before.aid == r.it.aid
                     && AgentMayAct(r.why.env, r.why.now, it.draft.agentId)
                else it.draft.mode == Optimistic && r.why.now - sub.now > it.draft.timeout
                     && it.draft.hostId in r.why.env.hosts && AgentMayAct(r.why.env, r.why.now, it.draft.agentId)
                     && Authorized(r.why.env.sets, r.why.env.hosts[it.draft.hostId],
                                   Acting(r.why.env, it.draft.agentId), it.draft.command))
  {
    var s := Reached(env, now, steps);
    ReachedIsGood(env, now, steps);
    var r := s.log[k];
    ExecutedItem(s, k);
    GroundsOf(s, k);
    QueuedRequestIsCleared(s.submissions[r.it.aid], s.sh.queue[r.it.aid].draft);
    QueuedStaysOnAllowedHosts(s.submissions[r.it.aid]);
  }

  lemma QueuedStaysOnAllowedHosts(sub: Submission)
    requires SubmissionOk(sub) && sub.verdict.Enqueue?
    ensures !FromConsole(sub.req) && !FromRest(sub.req) && sub.req.agentId != "" && sub.req.agentId in sub.env.agents
            && sub.env.agents[sub.req.agentId].allowedHosts != [] ==>
              sub.req.hostId in sub.env.agents[sub.req.agentId].allowedHosts
  {
    CallerRefusesExactly(sub.env, sub.now, sub.req);
  }

  lemma GroundsOf(s: State, k: nat)
    requires Good(s) && k < |s.log| && s.log[k].it.aid in s.sh.queue
    ensures var r := s.log[k];
            var it := s.sh.queue[r.it.aid];
            && RunOk(r) && r.it.createdAt == it.createdAt
            && r.it.aid in s.submissions && SubmissionOk(s.submissions[r.it.aid])
            && s.submissions[r.it.aid].verdict == Enqueue(it.draft) && s.submissions[r.it.aid].now == it.createdAt
  {
    assert LocalOk(s.log[k].it.aid, Of(s, s.log[k].it.aid), s.now);
    ExecutedItem(s, k);
  }

  lemma QueuedRequestIsCleared(sub: Submission, draft: Draft)
    requires SubmissionOk(sub) && sub.verdict == Enqueue(draft)
    ensures Cleared(sub.env, sub.now, sub.req, draft.resolved, draft.task, draft.mode) && draft.mode != Auto
    ensures sub.req.Exec? <==> draft.task == Command
    ensures sub.req.hostId in sub.env.hosts && draft.hostId == sub.env.hosts[sub.req.hostId].id
  {
    var req := sub.req;
    assert req.Exec? ==> req.channel != Console;
    AdmittedIsCleared(sub.env, sub.now, req);
  }

  // ----- what becomes of an item -----

  ghost predicate Fate(it: Item, runs: seq<Run>, dropped: bool, skipped: bool)
  {
    match it.status
    case Pending => runs == [] && it.result == None
    case Rejected => runs == [] && it.result == None
    case Approved =>
      if it.result.Some? then |runs| == 1 && it.result == Some(runs[0].outcome)
      else it.auto == Some(TimeoutApprove) && (dropped || (skipped && runs == []))
  }

  lemma LocalFate(a: Aid, l: Local, now: real)
    requires LocalOk(a, l, now) && l.item.Some? && l.held == NotHeld && l.approver == None
    ensures Fate(l.item.value, l.runs, l.dropped, l.skipped)
  {
    var auto := l.item.value.auto;
    assert auto.Some? ==> auto.value.TimeoutApprove? || auto.value.TimeoutReject?;
  }

  /**
   * When the sweep rests and no approver is in flight, every item is pending and unexecuted, rejected and
   * unexecuted, approved with the result of its only execution, or approved by timeout without a result: then an
   * aborted sweep dropped it, or its host was gone and it has never been executed.
   */
  lemma FateAtRest(env: Env, now: real, steps: seq<Step>, a: Aid)
    requires Feasible(Start(env, now), steps)
    requires var s := Reached(env, now, steps); s.sweep.Idle? && s.approvers == map[] && a in s.sh.queue
    ensures var s := Reached(env, now, steps);
            Fate(s.sh.queue[a], RunsOf(s.log, a), a in s.dropped, a in s.skipped)
  {
    var s := Reached(env, now, steps);
    ReachedIsGood(env, now, steps);
    assert LocalOk(a, Of(s, a), s.now);
    LocalFate(a, Of(s, a), s.now);
  }

  /**
   * An item whose host was gone when the sweep took it stays approved for good: it is never executed and never gets a
   * result, and once the sweep has left it, its waiter has been woken.
   */
  lemma GoneHostStaysApproved(env: Env, now: real, steps: seq<Step>, a: Aid)
    requires Feasible(Start(env, now), steps) && a in Reached(env, now, steps).skipped
    ensures var s := Reached(env, now, steps);
            && a in s.sh.queue && s.sh.queue[a].status == Approved && s.sh.queue[a].result == None
            && (forall k :: 0 <= k < |s.log| ==> s.log[k].it.aid != a)
            && (s.sweep.Idle? && a !in s.dropped && a in s.waiters && s.waiters[a].Asleep? ==> a in s.sh.fired)
  {
    var s := Reached(env, now, steps);
    ReachedIsGood(env, now, steps);
    assert LocalOk(a, Of(s, a), s.now);
    forall k | 0 <= k < |s.log|
      ensures s.log[k].it.aid != a
    {
      RunsOfHas(s.log, k);
    }
  }
}
