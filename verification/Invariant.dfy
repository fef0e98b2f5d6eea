/**
 * What every step of the approval protocol keeps. The state is projected on one approval id at a time: a step
 * touches the projection of the id it is about and leaves every other one alone.
 */
module Invariant {
  import opened Options
  import opened Registry
  import opened Executor
  import opened Approvals
  import opened Protocol

  // ----- the projection on one id -----

  /** Where the item stands in the sweep's batch. */
  datatype Held = NotHeld | Ahead(it: Item) | Now(it: Item, point: SweepPoint)

  datatype Local = Local(item: Option<Item>, submission: Option<Submission>, waiter: Option<Waiter>,
                         approver: Option<Approver>, held: Held, registered: bool, fired: bool,
                         runs: seq<Run>, dropped: bool, skipped: bool)

  const NOTHING := Local(None, None, None, None, NotHeld, false, false, [], false, false)

  function Get<T>(m: map<Aid, T>, a: Aid): Option<T>
  {
    if a in m then Some(m[a]) else None
  }

  /** The executions of one item. */
  function RunsOf(log: seq<Run>, a: Aid): seq<Run>
  {
    if log == [] then []
    else RunsOf(log[..|log| - 1], a) + if log[|log| - 1].it.aid == a then [log[|log| - 1]] else []
  }

  function Find(batch: seq<Item>, from: nat, a: Aid): (k: Option<nat>)
    ensures k.Some? ==> from <= k.value < |batch| && batch[k.value].aid == a
    ensures k.None? ==> forall i :: from <= i < |batch| ==> batch[i].aid != a
    decreases |batch| - from
  {
    if from >= |batch| then None else if batch[from].aid == a then Some(from) else Find(batch, from + 1, a)
  }

  function HeldOf(sweep: Sweep, a: Aid): Held
  {
    if sweep.Idle? then NotHeld
    else
      var k := Find(sweep.batch, sweep.pos, a);
      if k.None? then NotHeld
      else if k.value == sweep.pos then Now(sweep.batch[k.value], sweep.point)
      else Ahead(sweep.batch[k.value])
  }

  function Of(s: State, a: Aid): Local
  {
    Local(Get(s.sh.queue, a), Get(s.submissions, a), Get(s.waiters, a), Get(s.approvers, a), HeldOf(s.sweep, a),
          a in s.sh.events, a in s.sh.fired, RunsOf(s.log, a), a in s.dropped, a in s.skipped)
  }

  // ----- what holds of one id -----

  ghost predicate ApprovedByHand(it: Item)
  {
    it.status == Approved && it.auto == None
  }

  ghost predicate ItemOk(a: Aid, it: Item, now: real)
  {
    && it.aid == a && it.createdAt <= now
    && (it.status == Pending ==> it.auto == None)
    && (it.result.Some? ==> it.status == Approved)
    && (it.auto == Some(TimeoutApprove) ==> it.draft.mode == Optimistic && now - it.createdAt > it.draft.timeout)
    && (it.auto == Some(TimeoutReject) ==> it.status == Rejected && it.draft.mode != Optimistic)
    && (it.draft.mode == Strict ==> it.auto == None)
  }

  /** An item is executed at most once, only while approved, and a stored result is that execution's. */
  ghost predicate RunsOk(it: Item, runs: seq<Run>)
  {
    && |runs| <= 1
    && (runs != [] ==>
          && it.status == Approved && runs[0].it.aid == it.aid && runs[0].it.draft == it.draft
          && runs[0].it.createdAt == it.createdAt && (runs[0].decider == Operator <==> it.auto == None))
    && (it.result.Some? ==> runs != [] && it.result.value == runs[0].outcome)
  }

  /** An in-flight approver owns an item approved by hand that has no result yet. */
  ghost predicate ApproverOk(it: Item, l: Local)
  {
    match l.approver
    case None => true
    case Some(Running(i, why)) =>
      ApprovedByHand(it) && it.result == None && i == it && l.runs == []
    case Some(Returned(outcome)) =>
      ApprovedByHand(it) && it.result == None && l.runs != [] && l.runs[0].outcome == outcome
  }

  ghost predicate Untouched(b: Item, it: Item, l: Local)
  {
    && b == it && it.auto.Some? && it.result == None && l.runs == [] && !l.skipped
    && (it.auto == Some(TimeoutApprove) ==> it.status == Approved)
  }

  /** What the sweep holds is as the sweep wrote it and runs only at its turn. */
  ghost predicate HeldOk(it: Item, l: Local)
  {
    match l.held
    case NotHeld => true
    case Ahead(b) => Untouched(b, it, l)
    case Now(b, Take) => Untouched(b, it, l)
    case Now(b, Executing(why)) => Untouched(b, it, l) && it.auto == Some(TimeoutApprove)
    case Now(b, Ran(outcome)) =>
      b == it && it.auto == Some(TimeoutApprove) && it.status == Approved && it.result == None && !l.skipped
      && l.runs != [] && l.runs[0].outcome == outcome
    case Now(b, ToSignal) => it.auto.Some? && (it.status == Approved && it.result == None ==> l.skipped)
  }

  /** Every approved item without a result is in someone's hands or was lost for a recorded reason. */
  ghost predicate FateOk(it: Item, l: Local)
  {
    && (it.status == Approved && it.result == None ==>
          l.approver.Some? || l.held != NotHeld || l.dropped || l.skipped)
    && (l.dropped || l.skipped ==> it.auto.Some?)
    && (l.dropped ==> l.held == NotHeld)
    && (l.skipped ==> it.status == Approved && it.auto == Some(TimeoutApprove) && it.result == None && l.runs == [])
  }

  /** An item a waiter may be woken for: decided, and with its result if a hand-made approval ran it. */
  ghost predicate Settled(it: Item)
  {
    it.status != Pending && (ApprovedByHand(it) ==> it.result.Some?)
  }

  /** What a given answer still means later. */
  ghost predicate AnswerHolds(answer: Answer, woken: bool, it: Item)
  {
    && (answer.Result? ==> it.status == Approved && it.result == Some(answer.outcome)
                           && answer.automatic == (it.auto == Some(TimeoutApprove)))
    && (answer.RejectedByTimeout? ==> it.status == Rejected && it.auto == Some(TimeoutReject))
    && (answer.RejectedByOperator? ==> it.status == Rejected && it.auto != Some(TimeoutReject))
    && (answer.StillExecuting? ==> it.status != Pending && (woken ==> it.auto == Some(TimeoutApprove)))
    && (woken ==> !answer.StillPending?)
    && !answer.Unknown?
  }

  ghost predicate IsAsleep(l: Local)
  {
    l.waiter == Some(Asleep)
  }

  ghost predicate WaiterOk(it: Item, l: Local)
  {
    && (l.waiter == Some(Starting) ==> !l.registered && !l.fired)
    && (IsAsleep(l) ==> l.registered == !l.fired)
    && (l.waiter.Some? && l.waiter.value.Answered? ==> AnswerHolds(l.waiter.value.answer, l.waiter.value.woken, it))
    && (l.registered ==> IsAsleep(l) || l.waiter == Some(Cancelled))
    && (l.fired ==> Settled(it))
  }

  /** No lost wake-up: who sleeps on an unset event sleeps on an item that someone will still decide or signal. */
  ghost predicate WakeOk(it: Item, l: Local)
  {
    IsAsleep(l) && !l.fired ==> it.status == Pending || l.approver.Some? || l.held != NotHeld || l.dropped
  }

  ghost predicate Submitted(it: Item, l: Local)
  {
    l.submission.Some? && l.submission.value.verdict == Enqueue(it.draft) && l.submission.value.now == it.createdAt
  }

  ghost predicate LocalOk(a: Aid, l: Local, now: real)
  {
    if l.item.None? then l == NOTHING
    else
      var it := l.item.value;
      && ItemOk(a, it, now) && Submitted(it, l) && RunsOk(it, l.runs) && ApproverOk(it, l) && HeldOk(it, l)
      && FateOk(it, l) && WaiterOk(it, l) && WakeOk(it, l)
  }

  ghost predicate BatchOk(sweep: Sweep)
  {
    sweep.Walking? ==>
      && sweep.pos < |sweep.batch|
      && forall i, j :: 0 <= i < j < |sweep.batch| ==> sweep.batch[i].aid != sweep.batch[j].aid
  }

  ghost predicate Inv(s: State)
  {
    BatchOk(s.sweep) && forall a :: LocalOk(a, Of(s, a), s.now)
  }

  // ----- how one id may evolve -----

  /** The status order: a rejected item is final; an approved one is rejected only by the sweep and before any run. */
  ghost predicate ItemLater(it: Item, runs: seq<Run>, it': Item, runs': seq<Run>)
  {
    && it'.aid == it.aid && it'.draft == it.draft && it'.createdAt == it.createdAt
    && (it.status == Rejected ==> it' == it && runs' == runs)
    && (it.status == Approved ==>
          it'.auto == it.auto
          && (it'.status == Approved
              || (it'.status == Rejected && it.auto == Some(TimeoutApprove) && runs' == [] && it.result == None)))
    && (it.result.Some? ==> it'.result == it.result)
    && runs <= runs'
  }

  /** The sweep holds the item and has not yet re-checked it. */
  predicate BeforeRecheck(held: Held)
  {
    held.Ahead? || (held.Now? && held.point.Take?)
  }

  /** Approved, and no re-check of the sweep is still to come. */
  predicate Committed(l: Local)
  {
    l.item.Some? && l.item.value.status == Approved && !BeforeRecheck(l.held)
  }

  /** Decided, and in nobody's hands any more. */
  ghost predicate Closed(l: Local)
  {
    l.item.Some? && l.item.value.status != Pending && l.held == NotHeld && l.approver == None
  }

  ghost predicate Later(l: Local, l': Local)
  {
    && (Committed(l) ==> Committed(l'))
    && (Closed(l) ==> Closed(l') && l'.item == l.item && l'.runs == l.runs)
    && (l.item.Some? ==> l'.item.Some? && ItemLater(l.item.value, l.runs, l'.item.value, l'.runs))
    && (l.waiter.Some? && l.waiter.value.Answered? ==> l'.waiter == l.waiter)
    && (l.fired ==> l'.fired) && (l.dropped ==> l'.dropped) && (l.skipped ==> l'.skipped)
  }

  // ----- one id, one step: the projection of the step, and what it keeps -----

  lemma StartInv(env: Env, now: real)
    ensures Inv(Start(env, now))
  {
  }

  function LSignal(l: Local): Local
  {
    if l.registered then l.(registered := false, fired := true) else l
  }

  function LAnswer(l: Local, answer: Answer, woken: bool): Local
  {
    l.(registered := false, waiter := Some(Answered(answer, woken)))
  }

  lemma SubmitOf(s: State, aid: Aid, req: Request, waited: bool, a: Aid)
    requires Enabled(s, Submit(aid, req, waited))
    ensures var d := Admit(s.env, s.now, req).draft;
            Of(DoSubmit(s, aid, req, waited), a) ==
            if a != aid then Of(s, a)
            else Of(s, a).(item := Some(NewItem(aid, d, s.now)),
                           submission := Some(Submission(s.env, s.now, req, Enqueue(d))),
                           waiter := if waited then Some(Starting) else Of(s, a).waiter)
  {
  }

  lemma WaiterStartOf(s: State, aid: Aid, a: Aid)
    ensures Of(DoWaiterStart(s, aid), a) ==
            if a != aid then Of(s, a)
            else if IsPending(s.sh, aid) then Of(s, a).(registered := true, waiter := Some(Waiter.Asleep))
            else LAnswer(Of(s, a), AnswerFor(s.sh, aid), false)
  {
  }

  lemma WaiterEndOf(s: State, aid: Aid, a: Aid)
    ensures Of(DoWaiterEnd(s, aid), a) ==
            if a != aid then Of(s, a) else LAnswer(Of(s, a), AnswerFor(s.sh, aid), Of(s, a).fired)
  {
  }

  /** Deciding an item by hand and signalling it. */
  function LRejected(l: Local): Local
    requires l.item.Some?
  {
    LSignal(l.(item := Some(l.item.value.(status := Rejected))))
  }

  lemma RejectOf(s: State, aid: Aid, a: Aid)
    ensures Of(s.(sh := RejectStretch(s.sh, aid)), a) ==
            if a != aid || !IsPending(s.sh, aid) then Of(s, a) else LRejected(Of(s, a))
  {
  }

  function LApproved(l: Local, why: Why): Local
    requires l.item.Some?
  {
    var it := l.item.value.(status := Approved);
    l.(item := Some(it), approver := Some(Running(it, why)))
  }

  lemma ApproveOf(s: State, aid: Aid, a: Aid)
    ensures Of(DoApprove(s, aid), a) ==
            if a != aid || !IsPending(s.sh, aid) then Of(s, a)
            else if !AgentMayAct(s.env, s.now, s.sh.queue[aid].draft.agentId) then LRejected(Of(s, a))
            else LApproved(Of(s, a), Why(s.env, s.now, s.sh.queue[aid]))
  {
    if IsPending(s.sh, aid) {
      var ok := AgentMayAct(s.env, s.now, s.sh.queue[aid].draft.agentId);
      if ok {
        assert DoApprove(s, aid).sh == Resolved(s.sh, aid, Approved);
      } else {
        RejectOf(s, aid, a);
      }
    }
  }

  lemma RunsOfAppend(log: seq<Run>, r: Run, a: Aid)
    ensures RunsOf(log + [r], a) == RunsOf(log, a) + if r.it.aid == a then [r] else []
  {
    assert (log + [r])[..|log|] == log;
  }

  lemma ApproverRunOf(s: State, aid: Aid, outcome: Outcome, a: Aid)
    requires aid in s.approvers && s.approvers[aid].Running? && s.approvers[aid].it.aid == aid
    ensures var r := RunOf(s, s.approvers[aid].it, Operator, s.approvers[aid].why, outcome);
            Of(DoApproverRun(s, aid, outcome), a) ==
            if a != aid then Of(s, a)
            else Of(s, a).(approver := Some(Returned(outcome)), runs := Of(s, a).runs + [r])
  {
    RunsOfAppend(s.log, RunOf(s, s.approvers[aid].it, Operator, s.approvers[aid].why, outcome), a);
  }

  function LStored(l: Local, outcome: Outcome): Local
    requires l.item.Some?
  {
    LSignal(l.(item := Some(l.item.value.(result := Some(outcome))), approver := None))
  }

  lemma ApproverStoreOf(s: State, aid: Aid, a: Aid)
    requires Enabled(s, ApproverStore(aid)) && aid in s.sh.queue
    ensures Of(DoApproverStore(s, aid), a) ==
            if a != aid then Of(s, a) else LStored(Of(s, a), s.approvers[aid].outcome)
  {
  }

  /** The sweep's new hold on an item, as far as the id is concerned. */
  lemma SweepBeginOf(s: State, order: seq<Aid>, a: Aid)
    requires s.sweep.Idle? && ListsExpired(s, order)
    requires forall x :: x in s.sh.queue ==> s.sh.queue[x].aid == x
    ensures BatchOk(DoSweepBegin(s, order).sweep)
    ensures var l, l' := Of(s, a), Of(DoSweepBegin(s, order), a);
            if a !in s.sh.queue || !Expired(s.sh.queue[a], s.now) then l' == l
            else var it := Lapsed(s.sh.queue[a]);
                 l' == l.(item := Some(it), held := Ahead(it)) || l' == l.(item := Some(it), held := Now(it, Take))
  {
    var s' := DoSweepBegin(s, order);
    if s'.sweep.Walking? {
      var batch := s'.sweep.batch;
      assert forall i :: 0 <= i < |order| ==> batch[i] == Lapsed(s.sh.queue[order[i]]) && batch[i].aid == order[i];
      var k := Find(batch, 0, a);
      if a in order {
        var i :| 0 <= i < |order| && order[i] == a;
        assert batch[i].aid == a;
      } else {
        assert a !in order;
      }
    }
  }

  lemma SweepPointOf(s: State, point: SweepPoint, a: Aid)
    requires Protocol.At(s)
    ensures HeldOf(s.sweep.(point := point), a) ==
            if Current(s).aid == a then Now(Current(s), point) else HeldOf(s.sweep, a)
    ensures HeldOf(s.sweep, Current(s).aid) == Now(Current(s), s.sweep.point)
  {
  }

  lemma SweepTakeOf(s: State, a: Aid)
    requires Protocol.At(s) && Current(s).aid in s.sh.queue
    ensures var it, l := Current(s), Of(s, a);
            var gone := it.draft.hostId !in s.env.hosts;
            Of(DoSweepTake(s), a) ==
            if a != it.aid then l
            else if it.auto == Some(TimeoutApprove) && gone then l.(held := Now(it, ToSignal), skipped := true)
            else if it.auto == Some(TimeoutApprove) && RecheckOk(s.env, s.now, it)
            then l.(held := Now(it, Executing(Why(s.env, s.now, it))))
            else if it.auto.Some?
            then l.(held := Now(it, ToSignal), item := Some(l.item.value.(status := Rejected)))
            else l.(held := Now(it, ToSignal))
  {
    var it, s' := Current(s), DoSweepTake(s);
    SweepPointOf(s, s'.sweep.point, a);
    assert s'.sweep == s.sweep.(point := s'.sweep.point);
    if it.auto == Some(TimeoutApprove) {
      if it.draft.hostId !in s.env.hosts {
        assert s'.sweep.point == ToSignal;
      } else if RecheckOk(s.env, s.now, it) {
        assert s'.sweep.point == Executing(Why(s.env, s.now, it));
        assert s'.sh == s.sh && s'.skipped == s.skipped;
      } else {
        assert s'.sweep.point == ToSignal;
      }
    } else {
      assert s'.sweep.point == ToSignal;
      assert it.auto.Some? ==> it.auto.value.TimeoutApprove? || it.auto.value.TimeoutReject?;
    }
  }

  lemma SweepRunOf(s: State, outcome: Outcome, a: Aid)
    requires Enabled(s, SweepRun(outcome))
    ensures var r := RunOf(s, Current(s), Timeout, s.sweep.point.why, outcome);
            Of(DoSweepRun(s, outcome), a) ==
            if a != Current(s).aid then Of(s, a)
            else Of(s, a).(held := Now(Current(s), Ran(outcome)), runs := Of(s, a).runs + [r])
  {
    SweepPointOf(s, Ran(outcome), a);
    RunsOfAppend(s.log, RunOf(s, Current(s), Timeout, s.sweep.point.why, outcome), a);
  }

  lemma SweepStoreOf(s: State, a: Aid)
    requires Enabled(s, SweepStore) && Current(s).aid in s.sh.queue
    ensures Of(DoSweepStore(s), a) ==
            if a != Current(s).aid then Of(s, a)
            else Of(s, a).(held := Now(Current(s), ToSignal),
                           item := Some(Of(s, a).item.value.(status := Approved, result := Some(s.sweep.point.outcome))))
  {
    SweepPointOf(s, ToSignal, a);
  }

  lemma SweepSignalOf(s: State, a: Aid)
    requires Enabled(s, SweepSignal) && BatchOk(s.sweep)
    ensures BatchOk(DoSweepSignal(s).sweep)
    ensures var l, l' := Of(s, a), Of(DoSweepSignal(s), a);
            if a == Current(s).aid then l' == LSignal(l.(held := NotHeld))
            else l' == l || (l.held.Ahead? && l' == l.(held := Now(l.held.it, Take)))
  {
  }

  lemma SweepAbortOf(s: State, a: Aid)
    requires Protocol.At(s)
    ensures Of(DoSweepAbort(s), a) ==
            if Of(s, a).held == NotHeld then Of(s, a) else Of(s, a).(held := NotHeld, dropped := true)
  {
  }

  // ----- what each projected step keeps -----

  ghost predicate Keeps(a: Aid, l: Local, l': Local, now: real)
  {
    LocalOk(a, l', now) && Later(l, l')
  }

  lemma KeepTick(a: Aid, l: Local, now: real, t: real)
    requires LocalOk(a, l, now) && now <= t
    ensures Keeps(a, l, l, t)
  {
  }

  lemma KeepSubmit(a: Aid, l: Local, now: real, sub: Submission, draft: Draft, waiter: Option<Waiter>)
    requires LocalOk(a, l, now) && l.item.None? && sub.verdict == Enqueue(draft) && sub.now == now
    requires waiter == None || waiter == Some(Starting)
    ensures Keeps(a, l, l.(item := Some(NewItem(a, draft, now)), submission := Some(sub), waiter := waiter), now)
  {
  }

  lemma KeepAnswer(a: Aid, l: Local, now: real, woken: bool, sh: Shared)
    requires LocalOk(a, l, now) && l.item == Get(sh.queue, a)
    requires l.waiter == Some(Starting) || l.waiter == Some(Waiter.Asleep)
    requires woken ==> l.fired
    ensures Keeps(a, l, LAnswer(l, AnswerFor(sh, a), woken), now)
  {
    var it := l.item.value;
    assert it.auto.Some? ==> it.auto.value.TimeoutApprove? || it.auto.value.TimeoutReject?;
  }

  lemma KeepSleep(a: Aid, l: Local, now: real)
    requires LocalOk(a, l, now) && l.waiter == Some(Starting)
    requires l.item.Some? && l.item.value.status == Pending
    ensures Keeps(a, l, l.(registered := true, waiter := Some(Waiter.Asleep)), now)
  {
  }

  lemma KeepCancel(a: Aid, l: Local, now: real)
    requires LocalOk(a, l, now) && (l.waiter == Some(Starting) || l.waiter == Some(Waiter.Asleep))
    ensures Keeps(a, l, l.(waiter := Some(Cancelled)), now)
  {
  }

  lemma KeepRejected(a: Aid, l: Local, now: real)
    requires LocalOk(a, l, now) && l.item.Some? && l.item.value.status == Pending
    ensures Keeps(a, l, LRejected(l), now)
  {
  }

  lemma KeepApproved(a: Aid, l: Local, now: real, why: Why)
    requires LocalOk(a, l, now) && l.item.Some? && l.item.value.status == Pending
    ensures Keeps(a, l, LApproved(l, why), now)
  {
  }

  lemma KeepApproverRun(a: Aid, l: Local, now: real, r: Run)
    requires LocalOk(a, l, now) && l.approver.Some? && l.approver.value.Running?
    requires r.it == l.approver.value.it && r.decider == Operator
    ensures Keeps(a, l, l.(approver := Some(Returned(r.outcome)), runs := l.runs + [r]), now)
  {
    assert l.runs + [r] == [r];
  }

  lemma KeepStored(a: Aid, l: Local, now: real)
    requires LocalOk(a, l, now) && l.approver.Some? && l.approver.value.Returned?
    ensures Keeps(a, l, LStored(l, l.approver.value.outcome), now)
  {
  }

  lemma KeepLapsed(a: Aid, l: Local, now: real)
    requires LocalOk(a, l, now) && l.item.Some? && Expired(l.item.value, now) && l.held == NotHeld
    ensures var it := Lapsed(l.item.value);
            && Keeps(a, l, l.(item := Some(it), held := Ahead(it)), now)
            && Keeps(a, l, l.(item := Some(it), held := Now(it, Take)), now)
  {
  }

  lemma KeepSkip(a: Aid, l: Local, now: real)
    requires LocalOk(a, l, now) && l.held.Now? && l.held.point.Take? && l.held.it.auto == Some(TimeoutApprove)
    ensures Keeps(a, l, l.(held := Now(l.held.it, ToSignal), skipped := true), now)
  {
  }

  lemma KeepTaken(a: Aid, l: Local, now: real, why: Why)
    requires LocalOk(a, l, now) && l.held.Now? && l.held.point.Take? && l.held.it.auto == Some(TimeoutApprove)
    ensures Keeps(a, l, l.(held := Now(l.held.it, Executing(why))), now)
  {
  }

  lemma KeepSweepReject(a: Aid, l: Local, now: real)
    requires LocalOk(a, l, now) && l.held.Now? && l.held.point.Take?
    ensures l.item.Some?
    ensures Keeps(a, l, l.(held := Now(l.held.it, ToSignal),
                           item := Some(l.item.value.(status := Rejected))), now)
  {
    var it := l.item.value;
    assert it.auto.value.TimeoutApprove? || it.auto.value.TimeoutReject?;
  }

  lemma KeepSweepRun(a: Aid, l: Local, now: real, r: Run)
    requires LocalOk(a, l, now) && l.held.Now? && l.held.point.Executing?
    requires r.it == l.held.it && r.decider == Timeout
    ensures Keeps(a, l, l.(held := Now(l.held.it, Ran(r.outcome)), runs := l.runs + [r]), now)
  {
    assert l.runs + [r] == [r];
  }

  lemma KeepSweepStore(a: Aid, l: Local, now: real)
    requires LocalOk(a, l, now) && l.held.Now? && l.held.point.Ran?
    ensures l.item.Some?
    ensures Keeps(a, l, l.(held := Now(l.held.it, ToSignal),
                           item := Some(l.item.value.(status := Approved, result := Some(l.held.point.outcome)))), now)
  {
  }

  lemma KeepSweepSignal(a: Aid, l: Local, now: real)
    requires LocalOk(a, l, now) && l.held.Now? && l.held.point.ToSignal?
    ensures Keeps(a, l, LSignal(l.(held := NotHeld)), now)
  {
  }

  lemma KeepNext(a: Aid, l: Local, now: real)
    requires LocalOk(a, l, now) && l.held.Ahead?
    ensures Keeps(a, l, l.(held := Now(l.held.it, Take)), now)
  {
  }

  lemma KeepAbort(a: Aid, l: Local, now: real)
    requires LocalOk(a, l, now) && l.held != NotHeld
    ensures Keeps(a, l, l.(held := NotHeld, dropped := true), now)
  {
  }
}
