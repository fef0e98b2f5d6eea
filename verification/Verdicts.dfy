/**
 * What "rejected by operator" means (app/mcp_transport.py: _wait_result): the answer is given for every rejection that
 * is not a timeout, and it is true exactly of items without an automatic mark.
 */
module Verdicts {
  import opened Options
  import opened Executor
  import opened Approvals
  import opened Protocol
  import opened Invariant
  import opened Safety
  import opened Grounds
  import opened Theorems
  import opened Finality

  /** Not yet submitted, or not yet decided. */
  predicate Open(s: State, a: Aid)
  {
    a !in s.sh.queue || IsPending(s.sh, a)
  }

  /** An operator decides on the pending item; an approval that is refused for an inactive agent is one, too. */
  predicate HandStep(s: State, st: Step, a: Aid)
  {
    IsPending(s.sh, a) && (st == Reject(a) || st == Approve(a))
  }

  /** Somewhere in the run an operator decides on the item while it is pending. */
  ghost predicate ByHand(s: State, steps: seq<Step>, a: Aid)
    requires Feasible(s, steps)
    decreases |steps|
  {
    steps != [] && (HandStep(s, steps[0], a) || ByHand(Apply(s, steps[0]), steps[1..], a))
  }

  predicate Decided(s: State, a: Aid, automatic: bool)
  {
    a in s.sh.queue && s.sh.queue[a].status != Pending && s.sh.queue[a].auto.Some? == automatic
  }

  lemma HandDecides(s: State, st: Step, a: Aid)
    requires Inv(s) && Enabled(s, st) && HandStep(s, st, a)
    ensures Decided(Apply(s, st), a, false)
  {
    assert LocalOk(a, Of(s, a), s.now);
  }

  lemma BeginDecides(s: State, order: seq<Aid>, a: Aid)
    requires Inv(s) && Enabled(s, SweepBegin(order)) && Open(s, a)
    ensures Open(DoSweepBegin(s, order), a) || Decided(DoSweepBegin(s, order), a, true)
  {
  }

  lemma CurrentIsDecided(s: State, a: Aid)
    requires Inv(s) && Protocol.At(s) && Open(s, a)
    ensures Current(s).aid != a
  {
    CurrentHeld(s);
    assert LocalOk(a, Of(s, a), s.now);
  }

  lemma SweepDecides(s: State, st: Step, a: Aid)
    requires Inv(s) && Enabled(s, st) && Open(s, a) && OfSweep(st)
    ensures Open(Apply(s, st), a) || Decided(Apply(s, st), a, true)
  {
    if st.SweepBegin? {
      BeginDecides(s, st.order, a);
    } else {
      CurrentIsDecided(s, a);
    }
  }

  lemma OthersDoNot(s: State, st: Step, a: Aid)
    requires Inv(s) && Enabled(s, st) && Open(s, a) && !HandStep(s, st, a) && !OfSweep(st)
    ensures Open(Apply(s, st), a)
  {
    if st.ApproverStore? {
      assert LocalOk(st.aid, Of(s, st.aid), s.now);
    }
  }

  lemma OnlySweepDecides(s: State, st: Step, a: Aid)
    requires Inv(s) && Enabled(s, st) && Open(s, a) && !HandStep(s, st, a)
    ensures Open(Apply(s, st), a) || Decided(Apply(s, st), a, true)
  {
    if OfSweep(st) {
      SweepDecides(s, st, a);
    } else {
      OthersDoNot(s, st, a);
    }
  }

  /** Once decided, an item is not open again, and its mark stays. */
  lemma {:induction false} DecidedStays(s: State, steps: seq<Step>, a: Aid, automatic: bool)
    requires Good(s) && Feasible(s, steps) && Decided(s, a, automatic)
    ensures Decided(After(s, steps), a, automatic) && !ByHand(s, steps, a)
    decreases |steps|
  {
    if steps != [] {
      var s' := Apply(s, steps[0]);
      StepKeeps(s, steps[0]);
      StepGrounded(s, steps[0]);
      assert Later(Of(s, a), Of(s', a));
      assert LocalOk(a, Of(s', a), s'.now);
      DecidedStays(s', steps[1..], a, automatic);
    }
  }

  lemma {:induction false} MarkTellsWhoDecided(s: State, steps: seq<Step>, a: Aid)
    requires Good(s) && Feasible(s, steps) && Open(s, a) && !Open(After(s, steps), a)
    ensures Decided(After(s, steps), a, !ByHand(s, steps, a))
    decreases |steps|
  {
    var s' := Apply(s, steps[0]);
    StepKeeps(s, steps[0]);
    StepGrounded(s, steps[0]);
    if HandStep(s, steps[0], a) {
      HandDecides(s, steps[0], a);
      DecidedStays(s', steps[1..], a, false);
    } else {
      OnlySweepDecides(s, steps[0], a);
      if Open(s', a) {
        MarkTellsWhoDecided(s', steps[1..], a);
      } else {
        DecidedStays(s', steps[1..], a, true);
      }
    }
  }

  /**
   * A rejected item is reported as "rejected by operator" unless its timeout rejected it. That is the truth, an operator
   * decided while it was pending, exactly if the item has no automatic mark; otherwise it was the sweep's re-check.
   */
  lemma RejectedByOperatorExactly(env: Env, now: real, steps: seq<Step>, a: Aid)
    requires Feasible(Start(env, now), steps)
    requires a in Reached(env, now, steps).sh.queue && Reached(env, now, steps).sh.queue[a].status == Status.Rejected
    ensures var s := Reached(env, now, steps);
            var auto := s.sh.queue[a].auto;
            && (AnswerFor(s.sh, a) == RejectedByOperator <==> auto != Some(TimeoutReject))
            && (AnswerFor(s.sh, a) == RejectedByTimeout <==> auto == Some(TimeoutReject))
            && (ByHand(Start(env, now), steps, a) <==> auto == None)
            && (AnswerFor(s.sh, a) == RejectedByOperator && !ByHand(Start(env, now), steps, a) <==>
                  auto == Some(TimeoutApprove))
  {
    var s := Reached(env, now, steps);
    StartInv(env, now);
    ReachedIsGood(env, now, steps);
    MarkTellsWhoDecided(Start(env, now), steps, a);
    var auto := s.sh.queue[a].auto;
    assert auto.Some? ==> auto.value.TimeoutApprove? || auto.value.TimeoutReject?;
  }

  /** What a waiter answers, in terms of the item's record. */
  lemma AnswerExactly(sh: Shared, a: Aid)
    ensures var answer := AnswerFor(sh, a);
            if a !in sh.queue then answer == Unknown
            else var it := sh.queue[a];
              && (answer == StillPending <==> it.status == Pending)
              && (answer == StillExecuting <==> it.status == Approved && it.result == None)
              && (answer.Result? <==> it.status == Approved && it.result.Some?)
              && (answer.Result? ==> it.result == Some(answer.outcome)
                                     && (answer.automatic <==> it.auto == Some(TimeoutApprove)))
              && (answer == RejectedByTimeout <==> it.status == Status.Rejected && it.auto == Some(TimeoutReject))
              && (answer == RejectedByOperator <==> it.status == Status.Rejected && it.auto != Some(TimeoutReject))
  {
  }

  /** The answer is wrong when the re-check refuses: nobody rejected the item, and yet the client is told so. */
  lemma RecheckIsReportedAsOperator(s: State)
    requires Good(s) && Protocol.At(s) && s.sweep.point.Take? && Current(s).auto == Some(TimeoutApprove)
    requires Current(s).draft.hostId in s.env.hosts && !RecheckOk(s.env, s.now, Current(s))
    ensures Enabled(s, SweepTake)
    ensures var s' := DoSweepTake(s);
            var a := Current(s).aid;
            && a in s'.sh.queue && s'.sh.queue[a].status == Status.Rejected
            && s'.sh.queue[a].auto == Some(TimeoutApprove) && AnswerFor(s'.sh, a) == RejectedByOperator
  {
    CurrentHeld(s);
  }

  /** It happens from an empty gate: the run that takes an announced approval back ends with that answer. */
  lemma AWrongAnswer(env: Env, now: real, req: Request, later: real) returns (steps: seq<Step>)
    requires Optimistically(env, now, req) && later >= now && later - now > Admit(env, now, req).draft.timeout
    requires RecheckOk(env, later, NewItem(0, Admit(env, now, req).draft, now))
    ensures Feasible(Start(env, now), steps) && !ByHand(Start(env, now), steps, 1)
    ensures AnswerFor(Reached(env, now, steps).sh, 1) == RejectedByOperator
  {
    steps := AnAnnouncedApprovalIsTakenBack(env, now, req, later);
    RejectedByOperatorExactly(env, now, steps, 1);
  }
}
