/**
 * On what grounds an execution happens: along every run, each call of `run_queued` goes back to a submission the
 * pipeline cleared and to a decision that was allowed to be taken.
 */
module Grounds {
  import opened Registry
  import opened Executor
  import opened Approvals
  import opened Protocol
  import opened Invariant
  import opened Safety

  /** An operator decided on the item while it was pending and its agent could act. */
  predicate OperatorOk(it: Item, why: Why)
  {
    && why.before.status == Pending && why.before.aid == it.aid && why.before.draft == it.draft
    && AgentMayAct(why.env, why.now, it.draft.agentId)
  }

  /** The sweep decided on an optimistic item after its timeout, and the re-check passed. */
  predicate TimeoutOk(it: Item, why: Why)
  {
    && it.draft.mode == Optimistic && why.now - it.createdAt > it.draft.timeout
    && RecheckOk(why.env, why.now, it)
  }

  predicate DecisionOk(it: Item, decider: Decider, why: Why)
  {
    if decider == Operator then OperatorOk(it, why) else TimeoutOk(it, why)
  }

  /** What ran is what was queued, on the host the item names as the registry had it at the execution. */
  ghost predicate ActionOk(r: Run)
  {
    var d := r.it.draft;
    match r.action
    case RunText(host, text) =>
      d.hostId in r.env.hosts && host == r.env.hosts[d.hostId] && d.task == Command && text == d.resolved
    case PutFile(host, task) =>
      d.hostId in r.env.hosts && host == r.env.hosts[d.hostId] && task == d.task && task.SandboxFile?
    case NoHost => d.hostId !in r.env.hosts
  }

  ghost predicate RunOk(r: Run)
  {
    DecisionOk(r.it, r.decider, r.why) && ActionOk(r)
  }

  ghost predicate SubmissionOk(sub: Submission)
  {
    sub.verdict == Admit(sub.env, sub.now, sub.req)
  }

  ghost predicate SubmissionsOk(m: map<Aid, Submission>)
  {
    forall a :: a in m ==> SubmissionOk(m[a])
  }

  ghost predicate ApproversOk(m: map<Aid, Approver>)
  {
    forall a :: a in m && m[a].Running? ==> OperatorOk(m[a].it, m[a].why)
  }

  ghost predicate PointOk(sweep: Sweep)
  {
    sweep.Walking? && sweep.pos < |sweep.batch| && sweep.point.Executing? ==>
      TimeoutOk(sweep.batch[sweep.pos], sweep.point.why)
  }

  ghost predicate LogOk(log: seq<Run>)
  {
    forall k :: 0 <= k < |log| ==> RunOk(log[k])
  }

  ghost predicate Grounded(s: State)
  {
    SubmissionsOk(s.submissions) && ApproversOk(s.approvers) && PointOk(s.sweep) && LogOk(s.log)
  }

  lemma RunOfOk(s: State, it: Item, decider: Decider, why: Why, outcome: Outcome)
    requires DecisionOk(it, decider, why)
    ensures RunOk(RunOf(s, it, decider, why, outcome))
  {
  }

  lemma SweepGrounded(s: State, st: Step)
    requires Inv(s) && Grounded(s) && Enabled(s, st) && OfSweep(st)
    ensures Grounded(Apply(s, st))
  {
    if st.SweepTake? {
      CurrentHeld(s);
      assert ItemOk(Current(s).aid, Current(s), s.now);
    } else if st.SweepRun? {
      RunOfOk(s, Current(s), Timeout, s.sweep.point.why, st.outcome);
    }
  }

  /** Every step keeps the grounds. */
  lemma StepGrounded(s: State, st: Step)
    requires Inv(s) && Grounded(s) && Enabled(s, st)
    ensures Grounded(Apply(s, st))
  {
    if OfSweep(st) {
      SweepGrounded(s, st);
    } else if st.ApproverRun? {
      RunOfOk(s, s.approvers[st.aid].it, Operator, s.approvers[st.aid].why, st.outcome);
    } else if st.Submit? {
      assert SubmissionOk(Submission(s.env, s.now, st.req, Admit(s.env, s.now, st.req)));
    }
  }
}
