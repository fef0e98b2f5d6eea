/**
 * What is in motion gets finished: an approver in flight and a sweep that does not abort signal every item they hold.
 */
module Wakeups {
  import opened Options
  import opened Registry
  import opened Executor
  import opened Approvals
  import opened Protocol
  import opened Invariant
  import opened Safety
  import opened Grounds
  import opened Theorems

  lemma {:induction false} AfterConcat(s: State, f: seq<Step>, g: seq<Step>)
    requires Feasible(s, f) && Feasible(After(s, f), g)
    ensures Feasible(s, f + g) && After(s, f + g) == After(After(s, f), g)
    decreases |f|
  {
    if f == [] {
      assert f + g == g;
    } else {
      AfterConcat(Apply(s, f[0]), f[1..], g);
      assert (f + g)[1..] == f[1..] + g;
    }
  }

  lemma ThenOne(s: State, st: Step, rest: seq<Step>)
    requires Enabled(s, st) && Feasible(Apply(s, st), rest)
    ensures Feasible(s, [st] + rest) && After(s, [st] + rest) == After(Apply(s, st), rest)
  {
    assert ([st] + rest)[1..] == rest;
  }

  /** The event of an item was registered and has been set or will be by the next signal. */
  predicate Armed(s: State, a: Aid)
  {
    a in s.sh.events || a in s.sh.fired
  }

  function NextItem(sweep: Sweep): Sweep
    requires sweep.Walking?
  {
    if sweep.pos + 1 == |sweep.batch| then Idle else Walking(sweep.batch, sweep.pos + 1, Take)
  }

  /** Steps by which the sweep alone advances. */
  predicate Advances(st: Step)
  {
    st.SweepTake? || st.SweepRun? || st.SweepStore? || st.SweepSignal?
  }

  predicate AllAdvance(steps: seq<Step>)
  {
    forall k :: 0 <= k < |steps| ==> Advances(steps[k])
  }

  function Stage(point: SweepPoint): nat
  {
    match point
    case Take => 3
    case Executing(_) => 2
    case Ran(_) => 1
    case ToSignal => 0
  }

  /** The record and the event of an item are as before. */
  predicate Unmoved(s: State, s': State, b: Aid)
  {
    && Get(s'.sh.queue, b) == Get(s.sh.queue, b)
    && (b in s'.sh.events <==> b in s.sh.events) && (b in s'.sh.fired <==> b in s.sh.fired)
  }

  /** The sweep's own steps touch no other coroutine, and no item but the current one. */
  ghost predicate OnlyCurrent(s: State, s': State)
    requires Protocol.At(s)
  {
    && s'.env == s.env && s'.now == s.now && s'.waiters == s.waiters && s'.approvers == s.approvers
    && forall b :: b != Current(s).aid ==> Unmoved(s, s', b)
  }

  ghost predicate Finishes(s: State, s': State)
    requires Protocol.At(s)
  {
    && s'.sweep == NextItem(s.sweep)
    && (forall b :: Armed(s, b) ==> Armed(s', b))
    && (Armed(s, Current(s).aid) ==> Current(s).aid in s'.sh.fired)
    && (forall b :: b in s.sh.fired ==> b in s'.sh.fired)
    && OnlyCurrent(s, s')
  }

  lemma SignalFinishes(s: State)
    requires Protocol.At(s) && s.sweep.point.ToSignal?
    ensures Enabled(s, SweepSignal) && Finishes(s, DoSweepSignal(s))
  {
  }

  /** Any other advance of the sweep goes on with the same item. */
  lemma OneAdvance(s: State, st: Step)
    requires Protocol.At(s) && Advances(st) && !st.SweepSignal? && Enabled(s, st)
    ensures var s' := Apply(s, st);
            && (forall b :: Armed(s, b) ==> Armed(s', b)) && (forall b :: b in s.sh.fired ==> b in s'.sh.fired)
            && OnlyCurrent(s, s')
            && Protocol.At(s') && s'.sweep.batch == s.sweep.batch && s'.sweep.pos == s.sweep.pos
            && Stage(s'.sweep.point) < Stage(s.sweep.point)
  {
  }

  lemma OnlyCurrentComposes(s: State, s1: State, s2: State)
    requires Protocol.At(s) && Protocol.At(s1) && Current(s1) == Current(s) && OnlyCurrent(s, s1) && OnlyCurrent(s1, s2)
    ensures OnlyCurrent(s, s2)
  {
    forall b | b != Current(s).aid
      ensures Unmoved(s, s2, b)
    {
      assert Unmoved(s, s1, b) && Unmoved(s1, s2, b);
    }
  }

  /** From any point the sweep can finish its current item, and then it has signalled it. */
  lemma FinishItem(s: State) returns (steps: seq<Step>)
    requires Protocol.At(s)
    ensures AllAdvance(steps) && Feasible(s, steps) && Finishes(s, After(s, steps))
    decreases Stage(s.sweep.point)
  {
    if s.sweep.point.ToSignal? {
      SignalFinishes(s);
      ThenOne(s, SweepSignal, []);
      steps := [SweepSignal] + [];
    } else {
      var st := if s.sweep.point.Take? then SweepTake
                else if s.sweep.point.Executing? then SweepRun(Outcome("ok", "", "")) else SweepStore;
      OneAdvance(s, st);
      var rest := FinishItem(Apply(s, st));
      OnlyCurrentComposes(s, Apply(s, st), After(Apply(s, st), rest));
      ThenOne(s, st, rest);
      steps := [st] + rest;
    }
  }

  /** A sweep that does not abort ends, and by then every item it still held has been signalled. */
  lemma DrainSweep(s: State) returns (steps: seq<Step>)
    requires Protocol.At(s)
    ensures AllAdvance(steps) && Feasible(s, steps) && After(s, steps).sweep.Idle?
    ensures forall k :: s.sweep.pos <= k < |s.sweep.batch| && Armed(s, s.sweep.batch[k].aid) ==>
              s.sweep.batch[k].aid in After(s, steps).sh.fired
    ensures forall b :: b in s.sh.fired ==> b in After(s, steps).sh.fired
    ensures After(s, steps).approvers == s.approvers
    ensures forall b :: (forall k :: s.sweep.pos <= k < |s.sweep.batch| ==> s.sweep.batch[k].aid != b) ==>
              Unmoved(s, After(s, steps), b)
    decreases |s.sweep.batch| - s.sweep.pos
  {
    var first := FinishItem(s);
    var s' := After(s, first);
    if s'.sweep.Idle? {
      steps := first;
    } else {
      var rest := DrainSweep(s');
      AfterConcat(s, first, rest);
      steps := first + rest;
      forall b | forall k :: s.sweep.pos <= k < |s.sweep.batch| ==> s.sweep.batch[k].aid != b
        ensures Unmoved(s, After(s, steps), b)
      {
        assert Unmoved(s, s', b) && Unmoved(s', After(s', rest), b);
      }
    }
  }

  lemma FinishApproval(s: State, a: Aid, outcome: Outcome) returns (steps: seq<Step>)
    requires Inv(s) && !Underway(s) && a in s.approvers && a in s.sh.events
    ensures Feasible(s, steps) && a in After(s, steps).sh.fired
    ensures forall k :: 0 <= k < |steps| ==> steps[k] == ApproverRun(a, outcome) || steps[k] == ApproverStore(a)
  {
    if s.approvers[a].Running? {
      var s' := Apply(s, ApproverRun(a, outcome));
      ThenOne(s', ApproverStore(a), []);
      ThenOne(s, ApproverRun(a, outcome), [ApproverStore(a)]);
      steps := [ApproverRun(a, outcome)] + [ApproverStore(a)];
    } else {
      ThenOne(s, ApproverStore(a), []);
      steps := [ApproverStore(a)];
    }
  }

  /** The sweep gives up the event loop without touching an item it does not hold. */
  lemma Yield(s: State, a: Aid) returns (steps: seq<Step>)
    requires Inv(s) && Of(s, a).held == NotHeld
    ensures AllAdvance(steps) && Feasible(s, steps) && !Underway(After(s, steps))
    ensures After(s, steps).approvers == s.approvers && Unmoved(s, After(s, steps), a)
  {
    steps := [];
    if Underway(s) {
      steps := DrainSweep(s);
    }
  }

  /**
   * In every reachable state, a sleeping waiter whose item no aborted sweep dropped can still be woken: the sweep goes
   * on, and then, when the item is pending, the operator's next decision wakes it, or else the approver in flight.
   */
  lemma SleeperCanBeWoken(env: Env, now: real, steps: seq<Step>, a: Aid) returns (sweep: seq<Step>, more: seq<Step>)
    requires Feasible(Start(env, now), steps)
    requires var s := Reached(env, now, steps);
             a in s.waiters && s.waiters[a].Asleep? && a !in s.sh.fired && a !in s.dropped
    ensures Feasible(Reached(env, now, steps), sweep + more)
    ensures a in After(Reached(env, now, steps), sweep + more).sh.fired
    ensures AllAdvance(sweep)
    ensures if IsPending(Reached(env, now, steps).sh, a) then more == [Reject(a)]
            else forall k :: 0 <= k < |more| ==> (more[k].ApproverRun? || more[k].ApproverStore?) && more[k].aid == a
  {
    var s := Reached(env, now, steps);
    NoLostWakeUp(env, now, steps, a);
    ReachedIsGood(env, now, steps);
    assert LocalOk(a, Of(s, a), s.now);
    if IsPending(s.sh, a) {
      sweep := Yield(s, a);
      ThenOne(After(s, sweep), Reject(a), []);
      more := [Reject(a)];
      assert [Reject(a)] + [] == more;
    } else if a in s.approvers {
      sweep := Yield(s, a);
      SweepKeepsInv(s, sweep);
      more := FinishApproval(After(s, sweep), a, Outcome("ok", "", ""));
    } else {
      sweep := DrainSweep(s);
      more := [];
    }
    AfterConcat(s, sweep, more);
  }

  lemma SweepKeepsInv(s: State, steps: seq<Step>)
    requires Good(s) && Feasible(s, steps)
    ensures Inv(After(s, steps))
  {
    RunKeeps(s, steps);
  }

  // ----- decisions take effect -----

  /**
   * Approving a pending item of an agent that may act leads to its execution: the text that was queued, on the host
   * the registry has then; the result is stored, and a sleeping waiter is woken and will be told that result.
   */
  lemma ApprovalDelivers(s: State, a: Aid, outcome: Outcome)
    requires Good(s) && !Underway(s) && IsPending(s.sh, a) && AgentMayAct(s.env, s.now, s.sh.queue[a].draft.agentId)
    ensures Enabled(s, Approve(a)) && Enabled(DoApprove(s, a), ApproverRun(a, outcome))
    ensures Enabled(DoApproverRun(DoApprove(s, a), a, outcome), ApproverStore(a))
    ensures var s' := DoApproverStore(DoApproverRun(DoApprove(s, a), a, outcome), a);
            var d := s.sh.queue[a].draft;
            && a in s'.sh.queue && s'.sh.queue[a].status == Approved && s'.sh.queue[a].result == Some(outcome)
            && s'.log != [] && s'.log[..|s'.log| - 1] == s.log && s'.log[|s'.log| - 1].it.aid == a
            && s'.log[|s'.log| - 1].action == QueuedAction(s.env, d.hostId, d.resolved, d.task)
            && (a in s.sh.events ==> a in s'.sh.fired)
            && AnswerFor(s'.sh, a) == Answer.Result(outcome, false)
  {
    assert LocalOk(a, Of(s, a), s.now);
  }

  lemma RecheckPasses(s: State)
    requires Protocol.At(s) && Current(s).auto == Some(TimeoutApprove) && RecheckOk(s.env, s.now, Current(s))
    ensures DoSweepTake(s) == s.(sweep := s.sweep.(point := Executing(Why(s.env, s.now, Current(s)))))
  {
    var next := TakeStretch(s.sh, s.env, s.now, Current(s));
    assert next == (s.sh, TakeNext.Execute);
  }

  /** One turn of the sweep on an optimistic item whose re-check passes: executed, stored, signalled. */
  lemma ExpiryDelivers(s: State, outcome: Outcome)
    requires Good(s) && Protocol.At(s) && s.sweep.point.Take? && Current(s).auto == Some(TimeoutApprove)
    requires RecheckOk(s.env, s.now, Current(s))
    ensures Enabled(s, SweepTake) && Enabled(DoSweepTake(s), SweepRun(outcome))
    ensures Enabled(DoSweepRun(DoSweepTake(s), outcome), SweepStore)
    ensures var s' := DoSweepStore(DoSweepRun(DoSweepTake(s), outcome));
            var it := Current(s);
            && it.aid in s'.sh.queue && s'.sh.queue[it.aid].status == Approved
            && s'.sh.queue[it.aid].result == Some(outcome)
            && s'.log != [] && s'.log[..|s'.log| - 1] == s.log && s'.log[|s'.log| - 1].it == it
            && s'.log[|s'.log| - 1].action == QueuedAction(s.env, it.draft.hostId, it.draft.resolved, it.draft.task)
            && AnswerFor(s'.sh, it.aid) == Answer.Result(outcome, true)
            && s'.sweep.Walking? && s'.sweep.point.ToSignal? && s'.sweep.pos == s.sweep.pos
  {
    CurrentHeld(s);
    RecheckPasses(s);
  }

  /** An item that is neither optimistic nor strict is rejected when its time is over; a strict one waits for ever. */
  lemma ExpiryDecides(s: State, order: seq<Aid>, a: Aid)
    requires Good(s) && s.sweep.Idle? && ListsExpired(s, order) && IsPending(s.sh, a)
    ensures var it, s' := s.sh.queue[a], DoSweepBegin(s, order);
            && a in s'.sh.queue
            && (s'.sh.queue[a].status == Status.Rejected <==>
                  it.draft.mode != Optimistic && it.draft.mode != Strict && s.now - it.createdAt > it.draft.timeout)
            && (s'.sh.queue[a].status == Approved <==>
                  it.draft.mode == Optimistic && s.now - it.createdAt > it.draft.timeout)
            && (s'.sh.queue[a].status == Status.Rejected ==> AnswerFor(s'.sh, a) == RejectedByTimeout)
            && (s'.sh.queue[a].status != Pending ==>
                  exists k :: 0 <= k < |s'.sweep.batch| && s'.sweep.batch[k] == s'.sh.queue[a])
  {
    var s' := DoSweepBegin(s, order);
    if Expired(s.sh.queue[a], s.now) {
      var k :| 0 <= k < |order| && order[k] == a;
      assert s'.sweep.batch[k] == s'.sh.queue[a];
    }
  }

  lemma QueueIds(s: State)
    requires Inv(s)
    ensures forall x :: x in s.sh.queue ==> s.sh.queue[x].aid == x
  {
    forall x | x in s.sh.queue
      ensures s.sh.queue[x].aid == x
    {
      assert LocalOk(x, Of(s, x), s.now);
    }
  }

  lemma NotYetFired(s: State, a: Aid)
    requires Inv(s) && a in s.sh.queue && s.sh.queue[a].status == Pending
    ensures a !in s.sh.fired
  {
    assert LocalOk(a, Of(s, a), s.now);
  }
}
