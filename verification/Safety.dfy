/** Safety of every run of the approval protocol, and what becomes of each item. */
module Safety {
  import opened Options
  import opened Executor
  import opened Approvals
  import opened Protocol
  import opened Invariant

  // ----- one step, every id -----

  lemma SubmitKeeps(s: State, aid: Aid, req: Request, waited: bool, a: Aid)
    requires Inv(s) && Enabled(s, Submit(aid, req, waited))
    ensures Keeps(a, Of(s, a), Of(DoSubmit(s, aid, req, waited), a), s.now)
  {
    SubmitOf(s, aid, req, waited, a);
    if a != aid {
      KeepTick(a, Of(s, a), s.now, s.now);
    } else {
      var v := Admit(s.env, s.now, req);
      assert LocalOk(a, Of(s, a), s.now);
      KeepSubmit(a, Of(s, a), s.now, Submission(s.env, s.now, req, v), v.draft, if waited then Some(Starting) else None);
    }
  }

  lemma WaiterStartKeeps(s: State, aid: Aid, a: Aid)
    requires Inv(s) && Enabled(s, WaiterStart(aid))
    ensures Keeps(a, Of(s, a), Of(DoWaiterStart(s, aid), a), s.now)
  {
    assert LocalOk(a, Of(s, a), s.now);
    WaiterStartOf(s, aid, a);
    if a != aid {
      KeepTick(a, Of(s, a), s.now, s.now);
    } else if IsPending(s.sh, a) {
      KeepSleep(a, Of(s, a), s.now);
    } else {
      KeepAnswer(a, Of(s, a), s.now, false, s.sh);
    }
  }

  lemma WaiterEndKeeps(s: State, aid: Aid, a: Aid)
    requires Inv(s) && Enabled(s, WaiterEnd(aid))
    ensures Keeps(a, Of(s, a), Of(DoWaiterEnd(s, aid), a), s.now)
  {
    assert LocalOk(a, Of(s, a), s.now);
    WaiterEndOf(s, aid, a);
    if a != aid {
      KeepTick(a, Of(s, a), s.now, s.now);
    } else {
      KeepAnswer(a, Of(s, a), s.now, Of(s, a).fired, s.sh);
    }
  }

  lemma WaiterCancelKeeps(s: State, aid: Aid, a: Aid)
    requires Inv(s) && Enabled(s, WaiterCancel(aid))
    ensures Keeps(a, Of(s, a), Of(s.(waiters := s.waiters[aid := Cancelled]), a), s.now)
  {
    assert LocalOk(a, Of(s, a), s.now);
    if a != aid {
      KeepTick(a, Of(s, a), s.now, s.now);
    } else {
      KeepCancel(a, Of(s, a), s.now);
    }
  }

  lemma DecisionKeeps(s: State, st: Step, a: Aid)
    requires Inv(s) && Enabled(s, st) && (st.Approve? || st.Reject?)
    ensures Keeps(a, Of(s, a), Of(Apply(s, st), a), s.now)
  {
    assert LocalOk(a, Of(s, a), s.now);
    ApproveOf(s, st.aid, a);
    RejectOf(s, st.aid, a);
    KeepTick(a, Of(s, a), s.now, s.now);
    if a == st.aid && IsPending(s.sh, a) {
      KeepRejected(a, Of(s, a), s.now);
      KeepApproved(a, Of(s, a), s.now, Why(s.env, s.now, s.sh.queue[a]));
    }
  }

  lemma ApproverRunKeeps(s: State, aid: Aid, outcome: Outcome, a: Aid)
    requires Inv(s) && Enabled(s, ApproverRun(aid, outcome))
    ensures Keeps(a, Of(s, a), Of(DoApproverRun(s, aid, outcome), a), s.now)
  {
    assert LocalOk(aid, Of(s, aid), s.now);
    ApproverRunOf(s, aid, outcome, a);
    if a == aid {
      var r := s.approvers[a];
      KeepApproverRun(a, Of(s, a), s.now, RunOf(s, r.it, Operator, r.why, outcome));
    } else {
      assert LocalOk(a, Of(s, a), s.now);
      KeepTick(a, Of(s, a), s.now, s.now);
    }
  }

  lemma ApproverStoreKeeps(s: State, aid: Aid, a: Aid)
    requires Inv(s) && Enabled(s, ApproverStore(aid))
    ensures Keeps(a, Of(s, a), Of(DoApproverStore(s, aid), a), s.now)
  {
    assert LocalOk(aid, Of(s, aid), s.now);
    ApproverStoreOf(s, aid, a);
    if a == aid {
      KeepStored(a, Of(s, a), s.now);
    } else {
      assert LocalOk(a, Of(s, a), s.now);
      KeepTick(a, Of(s, a), s.now, s.now);
    }
  }

  lemma SweepBeginKeeps(s: State, order: seq<Aid>, a: Aid)
    requires Inv(s) && Enabled(s, SweepBegin(order))
    ensures BatchOk(DoSweepBegin(s, order).sweep)
    ensures Keeps(a, Of(s, a), Of(DoSweepBegin(s, order), a), s.now)
  {
    forall x | x in s.sh.queue ensures s.sh.queue[x].aid == x {
      assert LocalOk(x, Of(s, x), s.now);
    }
    SweepBeginOf(s, order, a);
    assert LocalOk(a, Of(s, a), s.now);
    KeepTick(a, Of(s, a), s.now, s.now);
    if a in s.sh.queue && Expired(s.sh.queue[a], s.now) {
      KeepLapsed(a, Of(s, a), s.now);
    }
  }

  /** What the invariant says of the item the sweep is at. */
  lemma CurrentHeld(s: State)
    requires Inv(s) && Protocol.At(s)
    ensures var a := Current(s).aid;
            a in s.sh.queue && LocalOk(a, Of(s, a), s.now) && Of(s, a).held == Now(Current(s), s.sweep.point)
  {
    var a := Current(s).aid;
    SweepPointOf(s, s.sweep.point, a);
    assert LocalOk(a, Of(s, a), s.now);
  }

  lemma TakeCurrentKeeps(s: State)
    requires Inv(s) && Enabled(s, SweepTake)
    ensures var a := Current(s).aid; Keeps(a, Of(s, a), Of(DoSweepTake(s), a), s.now)
  {
    CurrentHeld(s);
    var it, l := Current(s), Of(s, Current(s).aid);
    SweepTakeOf(s, it.aid);
    if it.auto == Some(TimeoutApprove) && it.draft.hostId !in s.env.hosts {
      KeepSkip(it.aid, l, s.now);
    } else if it.auto == Some(TimeoutApprove) && RecheckOk(s.env, s.now, it) {
      KeepTaken(it.aid, l, s.now, Why(s.env, s.now, it));
    } else {
      KeepSweepReject(it.aid, l, s.now);
    }
  }

  lemma SweepTakeKeeps(s: State, a: Aid)
    requires Inv(s) && Enabled(s, SweepTake)
    ensures Keeps(a, Of(s, a), Of(DoSweepTake(s), a), s.now)
  {
    if a == Current(s).aid {
      TakeCurrentKeeps(s);
    } else {
      CurrentHeld(s);
      SweepTakeOf(s, a);
      assert LocalOk(a, Of(s, a), s.now);
      KeepTick(a, Of(s, a), s.now, s.now);
    }
  }

  lemma SweepRunKeeps(s: State, outcome: Outcome, a: Aid)
    requires Inv(s) && Enabled(s, SweepRun(outcome))
    ensures Keeps(a, Of(s, a), Of(DoSweepRun(s, outcome), a), s.now)
  {
    CurrentHeld(s);
    SweepRunOf(s, outcome, a);
    assert LocalOk(a, Of(s, a), s.now);
    if a == Current(s).aid {
      KeepSweepRun(a, Of(s, a), s.now, RunOf(s, Current(s), Timeout, s.sweep.point.why, outcome));
    } else {
      KeepTick(a, Of(s, a), s.now, s.now);
    }
  }

  lemma SweepStoreKeeps(s: State, a: Aid)
    requires Inv(s) && Enabled(s, SweepStore)
    ensures Keeps(a, Of(s, a), Of(DoSweepStore(s), a), s.now)
  {
    CurrentHeld(s);
    SweepStoreOf(s, a);
    assert LocalOk(a, Of(s, a), s.now);
    if a == Current(s).aid {
      KeepSweepStore(a, Of(s, a), s.now);
    } else {
      KeepTick(a, Of(s, a), s.now, s.now);
    }
  }

  lemma SweepSignalKeeps(s: State, a: Aid)
    requires Inv(s) && Enabled(s, SweepSignal)
    ensures BatchOk(DoSweepSignal(s).sweep)
    ensures Keeps(a, Of(s, a), Of(DoSweepSignal(s), a), s.now)
  {
    CurrentHeld(s);
    SweepSignalOf(s, a);
    var l := Of(s, a);
    assert LocalOk(a, l, s.now);
    KeepTick(a, l, s.now, s.now);
    if a == Current(s).aid {
      KeepSweepSignal(a, l, s.now);
    } else if l.held.Ahead? {
      KeepNext(a, l, s.now);
    }
  }

  lemma SweepAbortKeeps(s: State, a: Aid)
    requires Inv(s) && Enabled(s, SweepAbort)
    ensures Keeps(a, Of(s, a), Of(DoSweepAbort(s), a), s.now)
  {
    SweepAbortOf(s, a);
    assert LocalOk(a, Of(s, a), s.now);
    if Of(s, a).held == NotHeld {
      KeepTick(a, Of(s, a), s.now, s.now);
    } else {
      KeepAbort(a, Of(s, a), s.now);
    }
  }

  predicate OfSweep(st: Step)
  {
    st.SweepBegin? || st.SweepTake? || st.SweepRun? || st.SweepStore? || st.SweepSignal? || st.SweepAbort?
  }

  lemma SweepKeeps(s: State, st: Step, a: Aid)
    requires Inv(s) && Enabled(s, st) && OfSweep(st)
    ensures BatchOk(Apply(s, st).sweep)
    ensures Keeps(a, Of(s, a), Of(Apply(s, st), a), s.now)
  {
    if st.SweepBegin? {
      SweepBeginKeeps(s, st.order, a);
    } else if st.SweepTake? {
      SweepTakeKeeps(s, a);
    } else if st.SweepRun? {
      SweepRunKeeps(s, st.outcome, a);
    } else if st.SweepStore? {
      SweepStoreKeeps(s, a);
    } else if st.SweepSignal? {
      SweepSignalKeeps(s, a);
    } else {
      SweepAbortKeeps(s, a);
    }
  }

  lemma WaiterKeeps(s: State, st: Step, a: Aid)
    requires Inv(s) && Enabled(s, st) && (st.WaiterStart? || st.WaiterEnd? || st.WaiterCancel?)
    ensures BatchOk(Apply(s, st).sweep)
    ensures Keeps(a, Of(s, a), Of(Apply(s, st), a), Apply(s, st).now)
  {
    if st.WaiterStart? {
      WaiterStartKeeps(s, st.aid, a);
    } else if st.WaiterEnd? {
      WaiterEndKeeps(s, st.aid, a);
    } else {
      WaiterCancelKeeps(s, st.aid, a);
    }
  }

  lemma StepKeepsOne(s: State, st: Step, a: Aid)
    requires Inv(s) && Enabled(s, st)
    ensures BatchOk(Apply(s, st).sweep)
    ensures Keeps(a, Of(s, a), Of(Apply(s, st), a), Apply(s, st).now)
  {
    if OfSweep(st) {
      SweepKeeps(s, st, a);
    } else if st.Submit? {
      SubmitKeeps(s, st.aid, st.req, st.waited, a);
    } else if st.WaiterStart? || st.WaiterEnd? || st.WaiterCancel? {
      WaiterKeeps(s, st, a);
    } else if st.Approve? || st.Reject? {
      DecisionKeeps(s, st, a);
    } else if st.ApproverRun? {
      ApproverRunKeeps(s, st.aid, st.outcome, a);
    } else if st.ApproverStore? {
      ApproverStoreKeeps(s, st.aid, a);
    } else {
      RegistryOrClockKeeps(s, st, a);
    }
  }

  lemma RegistryOrClockKeeps(s: State, st: Step, a: Aid)
    requires Inv(s) && Enabled(s, st) && (st.Tick? || st.Configure?)
    ensures BatchOk(Apply(s, st).sweep)
    ensures Keeps(a, Of(s, a), Of(Apply(s, st), a), Apply(s, st).now)
  {
    assert LocalOk(a, Of(s, a), s.now);
    KeepTick(a, Of(s, a), s.now, Apply(s, st).now);
  }

  /** Every step keeps the invariant, and every item only moves forward. */
  lemma StepKeeps(s: State, st: Step)
    requires Inv(s) && Enabled(s, st)
    ensures Inv(Apply(s, st))
    ensures forall a :: Later(Of(s, a), Of(Apply(s, st), a))
  {
    StepKeepsOne(s, st, 0);
    forall a ensures LocalOk(a, Of(Apply(s, st), a), Apply(s, st).now) && Later(Of(s, a), Of(Apply(s, st), a)) {
      StepKeepsOne(s, st, a);
    }
  }
}
